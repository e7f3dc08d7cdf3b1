/** The tree that Vault's LIST operation shows below a prefix, described by positions: a position
    is the sequence of places a key and the folders above it have in their listings. */
module VaultTree {
  /** LIST as an arbitrary function from paths to keys, so the tree may be infinite. */
  type Listing = string -> seq<string>

  predicate NamesFolder(key: string) {
    key != "" && key[|key| - 1] == '/'
  }

  /** q is p without its trailing slashes. */
  predicate Bared(p: string, q: string) {
    && q <= p
    && (forall i | |q| <= i < |p| :: p[i] == '/')
    && !NamesFolder(q)
  }

  /** The path of a subfolder: both names without trailing slashes, joined by one. */
  ghost predicate Joins(path: string, key: string, child: string) {
    exists p, k | Bared(path, p) && Bared(key, k) :: child == p + "/" + k
  }

  /** The folders that a position passes: each key but the last names the next folder. */
  ghost predicate Leads(list: Listing, start: string, position: seq<nat>, folders: seq<string>) {
    && |position| == |folders| > 0
    && folders[0] == start
    && (forall i | 0 <= i < |position| :: position[i] < |list(folders[i])|)
    && (forall i | 0 <= i < |position| - 1 ::
          NamesFolder(list(folders[i])[position[i]])
          && Joins(folders[i], list(folders[i])[position[i]], folders[i + 1]))
  }

  /** Folders are entered down to the fourth level below the prefix; what is not is a lease. */
  predicate IsLease(key: string, depth: nat) {
    !(NamesFolder(key) && depth < 4)
  }

  /** A position below a folder at some depth, and whether its key is a lease. */
  ghost predicate Holds(list: Listing, start: string, depth: nat, position: seq<nat>, lease: bool) {
    && depth + |position| <= 5
    && exists folders | Leads(list, start, position, folders) ::
         var last := |position| - 1;
         lease == IsLease(list(folders[last])[position[last]], depth + last)
  }

  /** One key of the tree. */
  datatype Entry = Entry(position: seq<nat>, lease: bool)

  /** A listing of the whole tree below a prefix: every position is in it once. */
  ghost predicate Enumerates(list: Listing, prefix: string, entries: seq<Entry>) {
    && Distinct(entries)
    && (forall e :: e in entries <==> Holds(list, prefix, 0, e.position, e.lease))
  }

  /** The number of leases among the first n keys. */
  function LeasesAmong(entries: seq<Entry>, n: nat): nat {
    if n == 0 || entries == [] then 0
    else LeasesAmong(entries[1..], n - 1) + if entries[0].lease then 1 else 0
  }

  lemma BaredOne(p: string, q: string, r: string)
    requires Bared(p, q) && Bared(p, r)
    ensures q == r
  {
    assert q == p[..|q|] && r == p[..|r|];
  }

  lemma JoinsOne(path: string, key: string, a: string, b: string)
    requires Joins(path, key, a) && Joins(path, key, b)
    ensures a == b
  {
    var p, k :| Bared(path, p) && Bared(key, k) && a == p + "/" + k;
    var q, l :| Bared(path, q) && Bared(key, l) && b == q + "/" + l;
    BaredOne(path, p, q);
    BaredOne(key, k, l);
  }

  /** A key has one path, and different keys have different paths unless only trailing slashes
      tell them apart. */
  lemma DifferentKeysDifferentPaths(path: string, a: string, b: string, child: string)
    requires Joins(path, a, child) && Joins(path, b, child)
    ensures exists key :: Bared(a, key) && Bared(b, key)
  {
    var p, k :| Bared(path, p) && Bared(a, k) && child == p + "/" + k;
    var q, l :| Bared(path, q) && Bared(b, l) && child == q + "/" + l;
    BaredOne(path, p, q);
    assert child[|p| + 1..] == k && child[|q| + 1..] == l;
  }

  predicate Distinct(entries: seq<Entry>) {
    forall i, j | 0 <= i < j < |entries| :: entries[i].position != entries[j].position
  }

  function Elements(entries: seq<Entry>): set<Entry> {
    set e | e in entries
  }

  function LeaseEntries(entries: seq<Entry>): set<Entry> {
    set e | e in entries && e.lease
  }

  lemma Grow(e: Entry, rest: seq<Entry>)
    ensures Elements([e] + rest) == {e} + Elements(rest)
    ensures LeaseEntries([e] + rest) == LeaseEntries(rest) + if e.lease then {e} else {}
  {
  }

  lemma DistinctRest(entries: seq<Entry>)
    requires Distinct(entries) && entries != []
    ensures Distinct(entries[1..])
    ensures entries[0] !in Elements(entries[1..]) && entries[0] !in LeaseEntries(entries[1..])
  {
  }

  lemma {:induction false} AllAmong(entries: seq<Entry>, n: nat)
    ensures LeasesAmong(entries, n) <= LeasesAmong(entries, |entries|) <= |entries|
    ensures |entries| <= n ==> LeasesAmong(entries, n) == LeasesAmong(entries, |entries|)
    decreases |entries|
  {
    if entries != [] {
      AllAmong(entries[1..], if n == 0 then 0 else n - 1);
    }
  }

  lemma {:induction false} Counted(entries: seq<Entry>)
    requires Distinct(entries)
    ensures |Elements(entries)| == |entries| && |LeaseEntries(entries)| == LeasesAmong(entries, |entries|)
  {
    if entries != [] {
      var e, rest := entries[0], entries[1..];
      DistinctRest(entries);
      Counted(rest);
      Grow(e, rest);
      assert entries == [e] + rest;
    }
  }

  lemma SameElements(list: Listing, prefix: string, a: seq<Entry>, b: seq<Entry>)
    requires Enumerates(list, prefix, a) && Enumerates(list, prefix, b)
    ensures Elements(a) == Elements(b) && LeaseEntries(a) == LeaseEntries(b)
  {
    forall e ensures e in a <==> e in b {
      assert e in a <==> Holds(list, prefix, 0, e.position, e.lease);
    }
  }

  /** Every enumeration of a tree has its number of entries and of leases. */
  lemma EnumerationsAgree(list: Listing, prefix: string, a: seq<Entry>, b: seq<Entry>)
    requires Enumerates(list, prefix, a) && Enumerates(list, prefix, b)
    ensures |a| == |b| && LeasesAmong(a, |a|) == |LeaseEntries(b)|
  {
    SameElements(list, prefix, a, b);
    Counted(a);
    Counted(b);
  }
}
