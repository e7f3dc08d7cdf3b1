/** The bounded traversal of `VaultReadOnlyClient._lease_count` over a stack of folders, against
    the recursive order in which it reads the tree. */
module VaultLeases {
  import opened Options
  import opened VaultTree

  const MAX_DEPTH: nat := 4
  const MAX_VISITS: nat := 500

  type Depth = depth: nat | depth <= MAX_DEPTH

  function StripSlashes(path: string): string {
    if path != "" && path[|path| - 1] == '/' then StripSlashes(path[..|path| - 1]) else path
  }

  function Child(path: string, key: string): string {
    StripSlashes(path) + "/" + StripSlashes(key)
  }

  predicate Descends(key: string, depth: Depth) {
    key != "" && key[|key| - 1] == '/' && depth < MAX_DEPTH
  }

  // ---------------------------------------------------------------------------------------
  // The order of reading
  // ---------------------------------------------------------------------------------------

  /** The tree below a folder as it is read: all its keys, then its folders, the last one first.
      `at` is the position of the folder. */
  function Traversal(list: Listing, path: string, depth: Depth, at: seq<nat>): seq<Entry>
    decreases MAX_DEPTH - depth, 1, 0
  {
    KeysFrom(list(path), depth, at, 0) + FoldersFrom(list, path, depth, at, 0)
  }

  function KeyAt(keys: seq<string>, depth: Depth, at: seq<nat>, k: nat): Entry
    requires k < |keys|
  {
    Entry(at + [k], !Descends(keys[k], depth))
  }

  function KeysFrom(keys: seq<string>, depth: Depth, at: seq<nat>, k: nat): seq<Entry>
    requires k <= |keys|
    decreases |keys| - k
  {
    if k == |keys| then [] else [KeyAt(keys, depth, at, k)] + KeysFrom(keys, depth, at, k + 1)
  }

  function FolderAt(list: Listing, path: string, depth: Depth, at: seq<nat>, k: nat): seq<Entry>
    requires k < |list(path)|
    decreases MAX_DEPTH - depth, 0, 0
  {
    if Descends(list(path)[k], depth) then Traversal(list, Child(path, list(path)[k]), depth + 1, at + [k]) else []
  }

  function FoldersFrom(list: Listing, path: string, depth: Depth, at: seq<nat>, k: nat): seq<Entry>
    requires k <= |list(path)|
    decreases MAX_DEPTH - depth, 0, |list(path)| - k + 1
  {
    if k == |list(path)| then [] else FoldersFrom(list, path, depth, at, k + 1) + FolderAt(list, path, depth, at, k)
  }

  // ---------------------------------------------------------------------------------------
  // It reads every position once
  // ---------------------------------------------------------------------------------------

  lemma {:induction false} StripIsBared(p: string)
    ensures Bared(p, StripSlashes(p))
  {
    if p != "" && p[|p| - 1] == '/' {
      StripIsBared(p[..|p| - 1]);
    }
  }

  lemma ChildIsJoined(path: string, key: string, child: string)
    ensures Joins(path, key, child) <==> child == Child(path, key)
  {
    StripIsBared(path);
    StripIsBared(key);
    if Joins(path, key, child) {
      JoinsOne(path, key, child, Child(path, key));
    }
  }

  lemma HoldsKey(list: Listing, path: string, depth: Depth, k: nat, lease: bool)
    ensures Holds(list, path, depth, [k], lease) <==>
            k < |list(path)| && lease == !Descends(list(path)[k], depth)
  {
    if k < |list(path)| {
      assert Leads(list, path, [k], [path]);
    }
  }

  /** The folders passed below the first key are those passed from its folder on. */
  lemma LeadsBelow(list: Listing, path: string, position: seq<nat>, folders: seq<string>)
    requires |position| > 1 && |folders| == |position| && folders[0] == path
    ensures Leads(list, path, position, folders) <==>
            && position[0] < |list(path)| && NamesFolder(list(path)[position[0]])
            && folders[1] == Child(path, list(path)[position[0]])
            && Leads(list, folders[1], position[1..], folders[1..])
  {
    if position[0] < |list(path)| {
      ChildIsJoined(path, list(path)[position[0]], folders[1]);
    }
    if Leads(list, folders[1], position[1..], folders[1..]) {
      forall i | 1 <= i < |position| ensures position[i] < |list(folders[i])| {
        assert position[i] == position[1..][i - 1] && folders[i] == folders[1..][i - 1];
      }
      forall i | 1 <= i < |position| - 1
        ensures NamesFolder(list(folders[i])[position[i]])
                && Joins(folders[i], list(folders[i])[position[i]], folders[i + 1])
      {
        assert position[i] == position[1..][i - 1] && folders[i] == folders[1..][i - 1];
        assert folders[i + 1] == folders[1..][i];
      }
    }
  }

  ghost predicate HeldBelow(list: Listing, path: string, depth: Depth, position: seq<nat>, lease: bool)
    requires |position| > 1
  {
    && position[0] < |list(path)| && Descends(list(path)[position[0]], depth)
    && Holds(list, Child(path, list(path)[position[0]]), depth + 1, position[1..], lease)
  }

  lemma HoldsOnlyBelow(list: Listing, path: string, depth: Depth, position: seq<nat>, lease: bool)
    requires |position| > 1 && Holds(list, path, depth, position, lease)
    ensures HeldBelow(list, path, depth, position, lease)
  {
    var rest, last := position[1..], |position| - 1;
    var folders :| Leads(list, path, position, folders)
                   && lease == IsLease(list(folders[last])[position[last]], depth + last);
    LeadsBelow(list, path, position, folders);
    assert rest[|rest| - 1] == position[last] && folders[1..][|rest| - 1] == folders[last];
  }

  lemma HoldsAbove(list: Listing, path: string, depth: Depth, position: seq<nat>, lease: bool)
    requires |position| > 1 && HeldBelow(list, path, depth, position, lease)
    ensures Holds(list, path, depth, position, lease)
  {
    var rest, child, last := position[1..], Child(path, list(path)[position[0]]), |position| - 2;
    var folders :| Leads(list, child, rest, folders)
                   && lease == IsLease(list(folders[last])[rest[last]], depth + 1 + last);
    assert ([path] + folders)[1..] == folders;
    LeadsBelow(list, path, position, [path] + folders);
  }

  lemma HoldsBelow(list: Listing, path: string, depth: Depth, position: seq<nat>, lease: bool)
    requires |position| > 1
    ensures Holds(list, path, depth, position, lease) <==> HeldBelow(list, path, depth, position, lease)
  {
    if Holds(list, path, depth, position, lease) {
      HoldsOnlyBelow(list, path, depth, position, lease);
    }
    if HeldBelow(list, path, depth, position, lease) {
      HoldsAbove(list, path, depth, position, lease);
    }
  }

  /** e lies below the folder at some position, which the rest of its own position shows. */
  ghost predicate LiesBelow(list: Listing, path: string, depth: Depth, at: seq<nat>, e: Entry) {
    |e.position| > |at| && e.position[..|at|] == at && Holds(list, path, depth, e.position[|at|..], e.lease)
  }

  lemma {:induction false} KeyIsRead(keys: seq<string>, depth: Depth, at: seq<nat>, k: nat, i: nat)
    requires k <= i < |keys|
    ensures KeyAt(keys, depth, at, i) in KeysFrom(keys, depth, at, k)
    decreases i - k
  {
    if k < i {
      KeyIsRead(keys, depth, at, k + 1, i);
    }
  }

  lemma {:induction false} OnlyKeysAreRead(keys: seq<string>, depth: Depth, at: seq<nat>, k: nat, e: Entry)
    returns (i: nat)
    requires k <= |keys| && e in KeysFrom(keys, depth, at, k)
    ensures k <= i < |keys| && e == KeyAt(keys, depth, at, i)
    decreases |keys| - k
  {
    i := k;
    if e != KeyAt(keys, depth, at, k) {
      i := OnlyKeysAreRead(keys, depth, at, k + 1, e);
    }
  }

  lemma KeysRead(keys: seq<string>, depth: Depth, at: seq<nat>, k: nat, e: Entry)
    requires k <= |keys|
    ensures e in KeysFrom(keys, depth, at, k) <==> exists i | k <= i < |keys| :: e == KeyAt(keys, depth, at, i)
  {
    if e in KeysFrom(keys, depth, at, k) {
      var i := OnlyKeysAreRead(keys, depth, at, k, e);
    }
    if i :| k <= i < |keys| && e == KeyAt(keys, depth, at, i) {
      KeyIsRead(keys, depth, at, k, i);
    }
  }

  predicate InFolder(list: Listing, path: string, depth: Depth, at: seq<nat>, k: nat, e: Entry)
    requires k < |list(path)|
  {
    e in FolderAt(list, path, depth, at, k)
  }

  lemma FoldersSplit(list: Listing, path: string, depth: Depth, at: seq<nat>, k: nat, e: Entry)
    requires k < |list(path)|
    ensures e in FoldersFrom(list, path, depth, at, k) <==>
            e in FoldersFrom(list, path, depth, at, k + 1) || InFolder(list, path, depth, at, k, e)
  {
  }

  lemma {:induction false} FoldersRead(list: Listing, path: string, depth: Depth, at: seq<nat>, k: nat, e: Entry)
    requires k <= |list(path)|
    ensures e in FoldersFrom(list, path, depth, at, k) <==>
            exists i | k <= i < |list(path)| :: InFolder(list, path, depth, at, i, e)
    decreases |list(path)| - k
  {
    if k < |list(path)| {
      FoldersRead(list, path, depth, at, k + 1, e);
      FoldersSplit(list, path, depth, at, k, e);
    }
  }

  /** The traversal reads exactly what lies below the folder. */
  lemma {:induction false} TraversalReads(list: Listing, path: string, depth: Depth, at: seq<nat>, e: Entry)
    ensures e in Traversal(list, path, depth, at) <==> LiesBelow(list, path, depth, at, e)
    decreases MAX_DEPTH - depth, 1
  {
    var keys := list(path);
    KeysRead(keys, depth, at, 0, e);
    FoldersRead(list, path, depth, at, 0, e);
    forall k: nat | k < |keys|
      ensures e == KeyAt(keys, depth, at, k) <==> LiesBelow(list, path, depth, at, e) && e.position[|at|..] == [k]
    {
      KeyLiesBelow(list, path, depth, at, k, e);
    }
    forall k: nat | k < |keys|
      ensures InFolder(list, path, depth, at, k, e) <==>
              LiesBelow(list, path, depth, at, e) && |e.position| > |at| + 1 && e.position[|at|] == k
    {
      FolderReads(list, path, depth, at, k, e);
    }
    if LiesBelow(list, path, depth, at, e) {
      FirstKey(list, path, depth, at, e);
      var k := e.position[|at|];
      if |e.position| == |at| + 1 {
        assert e == KeyAt(keys, depth, at, k);
      } else {
        assert InFolder(list, path, depth, at, k, e);
      }
    }
  }

  lemma FirstKey(list: Listing, path: string, depth: Depth, at: seq<nat>, e: Entry)
    requires LiesBelow(list, path, depth, at, e)
    ensures e.position[|at|] < |list(path)|
    ensures |e.position| == |at| + 1 ==> e.position[|at|..] == [e.position[|at|]]
  {
    assert e.position[|at|..][0] == e.position[|at|];
  }

  lemma {:induction false} FolderReads(list: Listing, path: string, depth: Depth, at: seq<nat>, k: nat, e: Entry)
    requires k < |list(path)|
    ensures InFolder(list, path, depth, at, k, e) <==>
            LiesBelow(list, path, depth, at, e) && |e.position| > |at| + 1 && e.position[|at|] == k
    decreases MAX_DEPTH - depth, 0
  {
    FolderLiesBelow(list, path, depth, at, k, e);
    if Descends(list(path)[k], depth) {
      TraversalReads(list, Child(path, list(path)[k]), depth + 1, at + [k], e);
    }
  }

  lemma KeyLiesBelow(list: Listing, path: string, depth: Depth, at: seq<nat>, k: nat, e: Entry)
    requires k < |list(path)|
    ensures e == KeyAt(list(path), depth, at, k) <==>
            LiesBelow(list, path, depth, at, e) && e.position[|at|..] == [k]
  {
    HoldsKey(list, path, depth, k, e.lease);
    if LiesBelow(list, path, depth, at, e) && e.position[|at|..] == [k] {
      assert e.position == e.position[..|at|] + e.position[|at|..];
    }
  }

  lemma FolderLiesBelow(list: Listing, path: string, depth: Depth, at: seq<nat>, k: nat, e: Entry)
    requires k < |list(path)|
    ensures Descends(list(path)[k], depth) && LiesBelow(list, Child(path, list(path)[k]), depth + 1, at + [k], e) <==>
            LiesBelow(list, path, depth, at, e) && |e.position| > |at| + 1 && e.position[|at|] == k
  {
    var n := |at|;
    if |e.position| > n + 1 {
      var rest := e.position[n..];
      assert rest[0] == e.position[n] && rest[1..] == e.position[n + 1..];
      assert e.position[..n + 1] == e.position[..n] + [e.position[n]];
      HoldsBelow(list, path, depth, rest, e.lease);
    }
  }

  lemma {:induction false} KeysDistinct(keys: seq<string>, depth: Depth, at: seq<nat>, k: nat)
    requires k <= |keys|
    ensures Distinct(KeysFrom(keys, depth, at, k))
    decreases |keys| - k
  {
    if k < |keys| {
      KeysDistinct(keys, depth, at, k + 1);
      var rest := KeysFrom(keys, depth, at, k + 1);
      forall j | 0 <= j < |rest| ensures rest[j].position != KeyAt(keys, depth, at, k).position {
        var i := OnlyKeysAreRead(keys, depth, at, k + 1, rest[j]);
        assert rest[j].position[|at|] == i;
      }
    }
  }

  lemma AppendDistinct(a: seq<Entry>, b: seq<Entry>)
    requires Distinct(a) && Distinct(b)
    requires forall x, y | x in a && y in b :: x.position != y.position
    ensures Distinct(a + b)
  {
  }

  lemma {:induction false} FoldersDistinct(list: Listing, path: string, depth: Depth, at: seq<nat>, k: nat)
    requires k <= |list(path)|
    ensures Distinct(FoldersFrom(list, path, depth, at, k))
    decreases MAX_DEPTH - depth, 0, |list(path)| - k
  {
    if k < |list(path)| {
      FoldersDistinct(list, path, depth, at, k + 1);
      var rest, here := FoldersFrom(list, path, depth, at, k + 1), FolderAt(list, path, depth, at, k);
      if Descends(list(path)[k], depth) {
        TraversalDistinct(list, Child(path, list(path)[k]), depth + 1, at + [k]);
      }
      forall x, y | x in rest && y in here ensures x.position != y.position {
        FoldersRead(list, path, depth, at, k + 1, x);
        var i :| k + 1 <= i < |list(path)| && InFolder(list, path, depth, at, i, x);
        FolderReads(list, path, depth, at, i, x);
        FolderReads(list, path, depth, at, k, y);
      }
      AppendDistinct(rest, here);
    }
  }

  lemma {:induction false} TraversalDistinct(list: Listing, path: string, depth: Depth, at: seq<nat>)
    ensures Distinct(Traversal(list, path, depth, at))
    decreases MAX_DEPTH - depth, 1, 0
  {
    var keys, folders := KeysFrom(list(path), depth, at, 0), FoldersFrom(list, path, depth, at, 0);
    KeysDistinct(list(path), depth, at, 0);
    FoldersDistinct(list, path, depth, at, 0);
    forall x, y | x in keys && y in folders ensures x.position != y.position {
      KeysRead(list(path), depth, at, 0, x);
      FoldersRead(list, path, depth, at, 0, y);
      var i :| 0 <= i < |list(path)| && InFolder(list, path, depth, at, i, y);
      FolderReads(list, path, depth, at, i, y);
    }
    AppendDistinct(keys, folders);
  }

  /** The reading order lists every key of the tree once. */
  lemma TraversalEnumerates(list: Listing, prefix: string)
    ensures Enumerates(list, prefix, Traversal(list, prefix, 0, []))
  {
    TraversalDistinct(list, prefix, 0, []);
    forall e ensures e in Traversal(list, prefix, 0, []) <==> Holds(list, prefix, 0, e.position, e.lease) {
      TraversalReads(list, prefix, 0, [], e);
      assert e.position[0..] == e.position;
    }
  }

  // ---------------------------------------------------------------------------------------
  // The loop
  // ---------------------------------------------------------------------------------------

  datatype Folder = Folder(path: string, depth: Depth)

  /** What is read from a stack of folders, the last one first; `spots` are their positions. */
  ghost function Pending(list: Listing, pending: seq<Folder>, spots: seq<seq<nat>>): seq<Entry>
    requires |pending| == |spots|
  {
    if pending == [] then [] else
      var n := |pending| - 1;
      Traversal(list, pending[n].path, pending[n].depth, spots[n]) + Pending(list, pending[..n], spots[..n])
  }

  /** What is still to be read in the middle of a listing: the remaining keys, the folders among
      them, and the stack. */
  ghost function Unread(list: Listing, path: string, depth: Depth, at: seq<nat>, k: nat, pending: seq<Folder>,
                        spots: seq<seq<nat>>): seq<Entry>
    requires k <= |list(path)| && |pending| == |spots|
  {
    KeysFrom(list(path), depth, at, k) + (FoldersFrom(list, path, depth, at, k) + Pending(list, pending, spots))
  }

  lemma PopKeepsOrder(list: Listing, pending: seq<Folder>, spots: seq<seq<nat>>)
    requires |pending| == |spots| && pending != []
    ensures var n := |pending| - 1;
            Pending(list, pending, spots)
            == Unread(list, pending[n].path, pending[n].depth, spots[n], 0, pending[..n], spots[..n])
  {
  }

  lemma Shuffle(first: seq<Entry>, keys: seq<Entry>, folders: seq<Entry>, here: seq<Entry>, rest: seq<Entry>)
    ensures (first + keys) + ((folders + here) + rest) == first + (keys + (folders + (here + rest)))
  {
  }

  lemma PushAdds(list: Listing, pending: seq<Folder>, spots: seq<seq<nat>>, folder: Folder, spot: seq<nat>)
    requires |pending| == |spots|
    ensures Pending(list, pending + [folder], spots + [spot])
         == Traversal(list, folder.path, folder.depth, spot) + Pending(list, pending, spots)
  {
    assert (pending + [folder])[..|pending|] == pending && (spots + [spot])[..|pending|] == spots;
  }

  /** Reading one key takes it off the front of what is unread; its folder comes before the stack. */
  lemma ReadKeepsOrder(list: Listing, path: string, depth: Depth, at: seq<nat>, k: nat, pending: seq<Folder>,
                       spots: seq<seq<nat>>)
    requires k < |list(path)| && |pending| == |spots|
    ensures Unread(list, path, depth, at, k, pending, spots)
         == [KeyAt(list(path), depth, at, k)] + (KeysFrom(list(path), depth, at, k + 1)
            + (FoldersFrom(list, path, depth, at, k + 1)
               + (FolderAt(list, path, depth, at, k) + Pending(list, pending, spots))))
  {
    var e := KeyAt(list(path), depth, at, k);
    var keys, folders := KeysFrom(list(path), depth, at, k + 1), FoldersFrom(list, path, depth, at, k + 1);
    assert KeysFrom(list(path), depth, at, k) == [e] + keys;
    Shuffle([e], keys, folders, FolderAt(list, path, depth, at, k), Pending(list, pending, spots));
  }

  datatype Inventory = NotConfigured | Inventory(leaseCount: nat, truncated: bool)

  /** The count stops behind the 500th key. */
  predicate Reports(entries: seq<Entry>, inventory: Inventory) {
    && inventory.Inventory?
    && (inventory.truncated <==> |entries| > 500)
    && inventory.leaseCount == LeasesAmong(entries, 500)
  }

  /** The progress of the loop: the leases counted and those among the unread keys up to the limit
      are those of the tree. */
  ghost predicate Reading(whole: seq<Entry>, visited: nat, leaseCount: nat, unread: seq<Entry>) {
    && visited <= MAX_VISITS && visited + |unread| == |whole|
    && leaseCount + LeasesAmong(unread, MAX_VISITS - visited) == LeasesAmong(whole, MAX_VISITS)
  }

  lemma ReadNext(whole: seq<Entry>, visited: nat, leaseCount: nat, unread: seq<Entry>)
    requires Reading(whole, visited, leaseCount, unread) && unread != []
    ensures if visited == MAX_VISITS then |whole| > MAX_VISITS && leaseCount == LeasesAmong(whole, MAX_VISITS)
            else Reading(whole, visited + 1, leaseCount + if unread[0].lease then 1 else 0, unread[1..])
  {
  }

  /** Between two listings: what is unread is the stack. */
  ghost predicate Between(list: Listing, unread: seq<Entry>, pending: seq<Folder>, spots: seq<seq<nat>>) {
    |pending| == |spots| && unread == Pending(list, pending, spots)
  }

  /** In the middle of a listing, before its key k. */
  ghost predicate Midway(list: Listing, unread: seq<Entry>, pending: seq<Folder>, spots: seq<seq<nat>>,
                         folder: Folder, at: seq<nat>, k: nat) {
    && |pending| == |spots| && k <= |list(folder.path)|
    && unread == Unread(list, folder.path, folder.depth, at, k, pending, spots)
  }

  lemma StartReading(list: Listing, prefix: string)
    ensures Between(list, Traversal(list, prefix, 0, []), [Folder(prefix, 0)], [[]])
  {
    PushAdds(list, [], [], Folder(prefix, 0), []);
  }

  lemma PopStarts(list: Listing, unread: seq<Entry>, pending: seq<Folder>, spots: seq<seq<nat>>)
    requires Between(list, unread, pending, spots) && pending != []
    ensures |pending| == |spots|
    ensures var n := |pending| - 1;
            Midway(list, unread, pending[..n], spots[..n], pending[n], spots[n], 0)
  {
    PopKeepsOrder(list, pending, spots);
  }

  /** The next key read is key k; its folder is pushed or it is a lease. */
  lemma KeyRead(list: Listing, unread: seq<Entry>, pending: seq<Folder>, spots: seq<seq<nat>>, folder: Folder,
                at: seq<nat>, k: nat)
    requires Midway(list, unread, pending, spots, folder, at, k) && k < |list(folder.path)|
    ensures unread != [] && unread[0].lease == !Descends(list(folder.path)[k], folder.depth)
    ensures unread[0].lease ==> Midway(list, unread[1..], pending, spots, folder, at, k + 1)
  {
    var here, rest := FolderAt(list, folder.path, folder.depth, at, k), Pending(list, pending, spots);
    ReadKeepsOrder(list, folder.path, folder.depth, at, k, pending, spots);
    if !Descends(list(folder.path)[k], folder.depth) {
      assert here + rest == rest;
      TakenOff(KeyAt(list(folder.path), folder.depth, at, k),
               Unread(list, folder.path, folder.depth, at, k + 1, pending, spots), unread);
    }
  }

  lemma FolderRead(list: Listing, unread: seq<Entry>, pending: seq<Folder>, spots: seq<seq<nat>>, folder: Folder,
                   at: seq<nat>, k: nat, child: Folder)
    requires Midway(list, unread, pending, spots, folder, at, k) && k < |list(folder.path)|
    requires Descends(list(folder.path)[k], folder.depth)
    requires child == Folder(Child(folder.path, list(folder.path)[k]), folder.depth + 1)
    ensures unread != [] && Midway(list, unread[1..], pending + [child], spots + [at + [k]], folder, at, k + 1)
  {
    ReadKeepsOrder(list, folder.path, folder.depth, at, k, pending, spots);
    PushedIsUnread(list, pending, spots, folder, at, k, child);
    TakenOff(KeyAt(list(folder.path), folder.depth, at, k),
             Unread(list, folder.path, folder.depth, at, k + 1, pending + [child], spots + [at + [k]]), unread);
  }

  lemma PushedIsUnread(list: Listing, pending: seq<Folder>, spots: seq<seq<nat>>, folder: Folder, at: seq<nat>, k: nat,
                       child: Folder)
    requires |pending| == |spots| && k < |list(folder.path)| && Descends(list(folder.path)[k], folder.depth)
    requires child == Folder(Child(folder.path, list(folder.path)[k]), folder.depth + 1)
    ensures Unread(list, folder.path, folder.depth, at, k + 1, pending + [child], spots + [at + [k]])
         == KeysFrom(list(folder.path), folder.depth, at, k + 1)
            + (FoldersFrom(list, folder.path, folder.depth, at, k + 1)
               + (FolderAt(list, folder.path, folder.depth, at, k) + Pending(list, pending, spots)))
  {
    PushAdds(list, pending, spots, child, at + [k]);
  }

  lemma TakenOff(e: Entry, rest: seq<Entry>, unread: seq<Entry>)
    requires unread == [e] + rest
    ensures unread != [] && unread[0] == e && unread[1..] == rest
  {
  }

  lemma ListingRead(list: Listing, unread: seq<Entry>, pending: seq<Folder>, spots: seq<seq<nat>>, folder: Folder,
                    at: seq<nat>)
    requires Midway(list, unread, pending, spots, folder, at, |list(folder.path)|)
    ensures Between(list, unread, pending, spots)
  {
    var last := |list(folder.path)|;
    assert KeysFrom(list(folder.path), folder.depth, at, last) == [];
    assert FoldersFrom(list, folder.path, folder.depth, at, last) == [];
  }

  /** The inventory of the tree below a prefix, its keys in reading order. */
  ghost predicate Reported(list: Listing, prefix: string, inventory: Inventory) {
    var entries := Traversal(list, prefix, 0, []);
    Enumerates(list, prefix, entries) && Reports(entries, inventory)
  }

  lemma LoopReports(list: Listing, prefix: string, visited: nat, inventory: Inventory)
    requires inventory.Inventory?
    requires var whole := Traversal(list, prefix, 0, []);
             if inventory.truncated
             then |whole| > MAX_VISITS && inventory.leaseCount == LeasesAmong(whole, MAX_VISITS)
             else Reading(whole, visited, inventory.leaseCount, [])
    ensures Reported(list, prefix, inventory)
  {
    TraversalEnumerates(list, prefix);
  }

  method LeaseCount(list: Listing, configured: Option<string>) returns (inventory: Inventory, ghost listings: nat)
    ensures configured.None? || configured.value == "" ==> inventory == NotConfigured && listings == 0
    ensures configured.Some? && configured.value != "" ==> Reported(list, configured.value, inventory)
    ensures listings <= 501
  {
    listings := 0;
    if configured.None? || configured.value == "" {
      return NotConfigured, 0;
    }
    var prefix := configured.value;
    var pending := [Folder(prefix, 0)];
    var leaseCount, visited := 0, 0;
    var truncated := false;
    ghost var whole := Traversal(list, prefix, 0, []);
    ghost var unread := whole;
    ghost var spots: seq<seq<nat>> := [[]];
    StartReading(list, prefix);
    while pending != []
      invariant truncated ==> pending == [] && |whole| > MAX_VISITS && listings <= MAX_VISITS + 1
      invariant truncated ==> leaseCount == LeasesAmong(whole, MAX_VISITS)
      invariant !truncated ==> Between(list, unread, pending, spots) && Reading(whole, visited, leaseCount, unread)
      invariant !truncated ==> listings + |pending| <= visited + 1
      decreases MAX_VISITS + 1 - visited, |pending|
    {
      PopStarts(list, unread, pending, spots);
      var last := |pending| - 1;
      var current := pending[last];
      ghost var at := spots[last];
      pending, spots := pending[..last], spots[..last];
      var keys := list(current.path);
      listings := listings + 1;
      ghost var before, left := visited, |pending|;
      var k := 0;
      while k < |keys|
        invariant 0 <= k <= |keys| && !truncated
        invariant before <= visited
        invariant visited > before || |pending| == left
        invariant Midway(list, unread, pending, spots, current, at, k)
        invariant Reading(whole, visited, leaseCount, unread)
        invariant listings + |pending| <= visited + 1
      {
        KeyRead(list, unread, pending, spots, current, at, k);
        ReadNext(whole, visited, leaseCount, unread);
        visited := visited + 1;
        if visited > MAX_VISITS {
          truncated := true;
          pending := [];
          break;
        }
        if Descends(keys[k], current.depth) {
          var child := Folder(Child(current.path, keys[k]), current.depth + 1);
          FolderRead(list, unread, pending, spots, current, at, k, child);
          pending, spots := pending + [child], spots + [at + [k]];
        } else {
          leaseCount := leaseCount + 1;
        }
        unread := unread[1..];
        k := k + 1;
      }
      if !truncated {
        ListingRead(list, unread, pending, spots, current, at);
      }
    }
    inventory := Inventory(leaseCount, truncated);
    if !truncated {
      assert unread == [];
    }
    LoopReports(list, prefix, visited, inventory);
  }

  /** What is reported is a fact about the tree alone: however its keys are enumerated, the count
      is cut short exactly when there are more than 500, is never more than the number of leases, and
      is that number when not cut short. */
  lemma ReportIsOfTheTree(list: Listing, prefix: string, inventory: Inventory, entries: seq<Entry>)
    requires Reported(list, prefix, inventory) && Enumerates(list, prefix, entries)
    ensures inventory.truncated <==> |entries| > 500
    ensures inventory.leaseCount <= |LeaseEntries(entries)| <= |entries|
    ensures !inventory.truncated ==> inventory.leaseCount == |LeaseEntries(entries)|
  {
    var whole := Traversal(list, prefix, 0, []);
    EnumerationsAgree(list, prefix, whole, entries);
    AllAmong(whole, 500);
  }
}
