/** `_translate_postgres_sql`. Positional statements pass a scanner that turns `?` into `%s`
    outside single-quoted text; its specification knows no scanner state but asks, for each
    character, whether an odd number of quotes stands before it. Statements with named parameters
    pass a regular-expression substitution of `:name` by `%(name)s`. */
module SqlTranslator {

  // ---------------------------------------------------------------------------------------
  // Named parameters
  // ---------------------------------------------------------------------------------------

  predicate NameStart(c: char) {
    'A' <= c <= 'Z' || 'a' <= c <= 'z' || c == '_'
  }

  predicate NameChar(c: char) {
    NameStart(c) || '0' <= c <= '9'
  }

  /** The longest run of name characters at the front. */
  function NameLength(s: string): (n: nat)
    ensures n <= |s| && forall i | 0 <= i < n :: NameChar(s[i])
  {
    if s == "" || !NameChar(s[0]) then 0 else 1 + NameLength(s[1..])
  }

  /** A parameter begins here unless the colon follows another colon. */
  predicate ParameterAt(s: string, afterColon: bool) {
    |s| >= 2 && s[0] == ':' && !afterColon && NameStart(s[1])
  }

  function Placeholder(name: string): string {
    "%(" + name + ")s"
  }

  /** The substitution on the rest of a statement. */
  function Named(s: string, afterColon: bool): string
    decreases |s|
  {
    if s == "" then ""
    else if ParameterAt(s, afterColon) then
      var n := NameLength(s[1..]);
      Placeholder(s[1..][..n]) + Named(s[1..][n..], false)
    else [s[0]] + Named(s[1..], s[0] == ':')
  }

  lemma {:induction false} ColonFreeIsKept(t: string, rest: string, afterColon: bool)
    requires t != "" && forall i | 0 <= i < |t| :: t[i] != ':'
    ensures Named(t + rest, afterColon) == t + Named(rest, false)
    decreases |t|
  {
    assert (t + rest)[1..] == t[1..] + rest;
    if |t| > 1 {
      ColonFreeIsKept(t[1..], rest, false);
      assert t == [t[0]] + t[1..];
    } else {
      assert t[1..] + rest == rest;
    }
  }

  predicate ColonFree(t: string) {
    forall i | 0 <= i < |t| :: t[i] != ':'
  }

  predicate Letter(c: char) {
    'a' <= c <= 'z' || 'A' <= c <= 'Z'
  }

  predicate Digit(c: char) {
    '0' <= c <= '9'
  }

  /** A letter or underscore, then letters, digits and underscores. */
  predicate IsName(name: string) {
    && name != "" && !Digit(name[0])
    && forall i | 0 <= i < |name| :: Letter(name[i]) || Digit(name[i]) || name[i] == '_'
  }

  /** Nothing that would make a name longer. */
  predicate EndsName(rest: string) {
    rest == "" || !(Letter(rest[0]) || Digit(rest[0]) || rest[0] == '_')
  }

  lemma ColonFreePrefix(a: string, rest: string)
    requires ColonFree(a)
    ensures Named(a + rest, false) == a + Named(rest, false)
  {
    if a == "" {
      assert a + rest == rest;
    } else {
      ColonFreeIsKept(a, rest, false);
    }
  }

  lemma {:induction false} WholeName(name: string, rest: string)
    requires (forall i | 0 <= i < |name| :: NameChar(name[i])) && (rest == "" || !NameChar(rest[0]))
    ensures NameLength(name + rest) == |name|
  {
    if name == "" {
      assert name + rest == rest;
    } else {
      WholeName(name[1..], rest);
      assert (name + rest)[1..] == name[1..] + rest;
    }
  }

  /** The first parameter of a statement is replaced by its placeholder and what stands before it
      is kept. */
  lemma ParametersAreReplaced(a: string, name: string, b: string)
    requires ColonFree(a) && IsName(name) && EndsName(b)
    ensures Named(a + (":" + name + b), false) == a + ("%(" + name + ")s" + Named(b, false))
  {
    var rest := ":" + name + b;
    ColonFreePrefix(a, rest);
    assert rest[1..] == name + b;
    WholeName(name, b);
    assert rest[1..][..|name|] == name && rest[1..][|name|..] == b;
  }

  /** A cast is kept. */
  lemma CastsAreKept(a: string, b: string)
    requires ColonFree(a)
    ensures Named(a + ("::" + b), false) == a + ("::" + Named(b, true))
  {
    ColonFreePrefix(a, "::" + b);
    assert ("::" + b)[1..] == ":" + b && (":" + b)[1..] == b;
    assert Named(":" + b, true) == ":" + Named(b, true);
    assert ":" + (":" + Named(b, true)) == "::" + Named(b, true);
  }

  /** So is a colon that no name follows. */
  lemma LoneColonsAreKept(a: string, b: string)
    requires ColonFree(a) && (b == "" || !(Letter(b[0]) || b[0] == '_'))
    ensures Named(a + (":" + b), false) == a + (":" + Named(b, true))
  {
    ColonFreePrefix(a, ":" + b);
    assert (":" + b)[1..] == b;
  }

  /** After a colon the next character only starts no parameter of its own. */
  lemma AfterColon(b: string)
    ensures Named(b, true) == if |b| >= 2 && b[0] == ':' && NameStart(b[1]) then ":" + Named(b[1..], true)
                              else Named(b, false)
  {
  }

  /** The substitution never puts a name behind a colon. */
  lemma NoNewParameter(s: string, afterColon: bool)
    requires s != "" && !ParameterAt(s, afterColon)
    ensures !ParameterAt([s[0]] + Named(s[1..], s[0] == ':'), afterColon)
  {
    var rest := Named(s[1..], s[0] == ':');
    if s[0] == ':' && s[1..] != "" {
      assert rest[0] == s[1];
    }
  }

  /** A second substitution finds no parameter left. */
  lemma {:induction false} NamedIsIdempotent(s: string, afterColon: bool)
    ensures Named(Named(s, afterColon), afterColon) == Named(s, afterColon)
    decreases |s|
  {
    if s == "" {
    } else if ParameterAt(s, afterColon) {
      var n := NameLength(s[1..]);
      NamedIsIdempotent(s[1..][n..], false);
      ColonFreeIsKept(Placeholder(s[1..][..n]), Named(s[1..][n..], false), afterColon);
    } else {
      NamedIsIdempotent(s[1..], s[0] == ':');
      NoNewParameter(s, afterColon);
      var rest := Named(s[1..], s[0] == ':');
      assert ([s[0]] + rest)[1..] == rest;
    }
  }

  // ---------------------------------------------------------------------------------------
  // Positional parameters
  // ---------------------------------------------------------------------------------------

  function Quotes(s: string, n: nat): nat
    requires n <= |s|
  {
    if n == 0 then 0 else Quotes(s, n - 1) + if s[n - 1] == '\'' then 1 else 0
  }

  predicate Quoted(s: string, i: nat)
    requires i <= |s|
  {
    Quotes(s, i) % 2 == 1
  }

  /** What character i contributes to the output. */
  function Piece(s: string, i: nat): string
    requires i < |s|
  {
    if s[i] == '?' && !Quoted(s, i) then "%s" else [s[i]]
  }

  function Translated(s: string, n: nat): string
    requires n <= |s|
  {
    if n == 0 then "" else Translated(s, n - 1) + Piece(s, n - 1)
  }

  /** The scanner, with its lookahead over a doubled quote inside quoted text. `normalized` is
      the statement stripped and upper-cased, `named` says that the parameters are a dictionary. */
  method Translate(statement: string, normalized: string, named: bool) returns (out: string)
    ensures out == if normalized == "BEGIN IMMEDIATE" then "BEGIN"
                   else if named then Named(statement, false)
                   else Translated(statement, |statement|)
  {
    if normalized == "BEGIN IMMEDIATE" {
      return "BEGIN";
    }
    if named {
      return Named(statement, false);
    }
    out := "";
    var inSingleQuote := false;
    var index := 0;
    while index < |statement|
      invariant 0 <= index <= |statement|
      invariant inSingleQuote == Quoted(statement, index)
      invariant out == Translated(statement, index)
    {
      var character := statement[index];
      if character == '\'' {
        out := out + [character];
        if inSingleQuote && index + 1 < |statement| && statement[index + 1] == '\'' {
          assert Quotes(statement, index + 1) == Quotes(statement, index) + 1;
          assert Quotes(statement, index + 2) == Quotes(statement, index) + 2;
          assert Piece(statement, index + 1) == "'" && Translated(statement, index + 1) == out;
          out := out + "'";
          index := index + 2;
          continue;
        }
        inSingleQuote := !inSingleQuote;
      } else if character == '?' && !inSingleQuote {
        out := out + "%s";
      } else {
        out := out + [character];
      }
      index := index + 1;
    }
  }

  // ---------------------------------------------------------------------------------------
  // The same translation read from the front
  // ---------------------------------------------------------------------------------------

  function Forward(s: string, quoted: bool): string {
    if s == "" then ""
    else if s[0] == '\'' then "'" + Forward(s[1..], !quoted)
    else if s[0] == '?' && !quoted then "%s" + Forward(s[1..], quoted)
    else [s[0]] + Forward(s[1..], quoted)
  }

  lemma ForwardStep(s: string, n: nat)
    requires n < |s|
    ensures Forward(s[n..], Quoted(s, n)) == Piece(s, n) + Forward(s[n + 1..], Quoted(s, n + 1))
  {
    assert s[n..][1..] == s[n + 1..];
    assert Quotes(s, n + 1) == Quotes(s, n) + if s[n] == '\'' then 1 else 0;
  }

  lemma {:induction false} ForwardAgreesFrom(s: string, n: nat)
    requires n <= |s|
    ensures Translated(s, |s|) == Translated(s, n) + Forward(s[n..], Quoted(s, n))
    decreases |s| - n
  {
    if n < |s| {
      ForwardAgreesFrom(s, n + 1);
      ForwardStep(s, n);
      var before, piece, after := Translated(s, n), Piece(s, n), Forward(s[n + 1..], Quoted(s, n + 1));
      assert before + (piece + after) == (before + piece) + after;
    }
  }

  lemma ForwardAgrees(s: string)
    ensures Forward(s, false) == Translated(s, |s|)
  {
    assert s[0..] == s && !Quoted(s, 0);
    var front := Forward(s, false);
    assert Translated(s, |s|) == "" + front by { ForwardAgreesFrom(s, 0); }
    assert "" + front == front;
  }

  lemma {:induction false} ForwardTwice(s: string, quoted: bool)
    ensures Forward(Forward(s, quoted), quoted) == Forward(s, quoted)
  {
    if s != "" {
      var q := if s[0] == '\'' then !quoted else quoted;
      var rest := Forward(s[1..], q);
      ForwardTwice(s[1..], q);
      if s[0] == '?' && !quoted {
        assert Forward(s, quoted) == "%s" + rest;
        assert ("%s" + rest)[1..] == "s" + rest && ("s" + rest)[1..] == rest;
        assert Forward("s" + rest, quoted) == "s" + rest;
      } else {
        assert Forward(s, quoted) == [s[0]] + rest;
        assert ([s[0]] + rest)[1..] == rest;
      }
    }
  }

  /** A second pass finds nothing left to translate. */
  lemma TranslationIsIdempotent(s: string)
    ensures Translated(Translated(s, |s|), |Translated(s, |s|)|) == Translated(s, |s|)
  {
    ForwardAgrees(s);
    ForwardTwice(s, false);
    ForwardAgrees(Translated(s, |s|));
  }

  // ---------------------------------------------------------------------------------------
  // Nothing is lost
  // ---------------------------------------------------------------------------------------

  /** Map every unquoted `%s` back to `?`. */
  function Restored(t: string, quoted: bool): string {
    if t == "" then ""
    else if t[0] == '\'' then "'" + Restored(t[1..], !quoted)
    else if !quoted && |t| >= 2 && t[0] == '%' && t[1] == 's' then "?" + Restored(t[2..], quoted)
    else [t[0]] + Restored(t[1..], quoted)
  }

  /** The statement has no unquoted `%s` of its own. */
  predicate NoMarker(s: string) {
    forall i | 0 <= i < |s| - 1 && s[i] == '%' && s[i + 1] == 's' :: Quoted(s, i)
  }

  predicate NoMarkerFrom(s: string, quoted: bool) {
    s != "" ==>
      && !(!quoted && |s| >= 2 && s[0] == '%' && s[1] == 's')
      && NoMarkerFrom(s[1..], if s[0] == '\'' then !quoted else quoted)
  }

  lemma {:induction false} NoMarkerAgrees(s: string, n: nat)
    requires NoMarker(s) && n <= |s|
    ensures NoMarkerFrom(s[n..], Quoted(s, n))
    decreases |s| - n
  {
    if n < |s| {
      NoMarkerAgrees(s, n + 1);
      assert s[n..][1..] == s[n + 1..];
      assert Quotes(s, n + 1) == Quotes(s, n) + if s[n] == '\'' then 1 else 0;
    }
  }

  /** What the first character of a statement becomes on the way there and back. */
  lemma RestoredStep(s: string, quoted: bool)
    requires s != ""
    ensures var q := if s[0] == '\'' then !quoted else quoted;
            var marker := !quoted && |s| >= 2 && s[0] == '%' && s[1] == 's';
            Restored(Forward(s, quoted), quoted)
              == if marker then "?" + Restored(Forward(s[2..], q), q) else [s[0]] + Restored(Forward(s[1..], q), q)
  {
    var q := if s[0] == '\'' then !quoted else quoted;
    var rest := Forward(s[1..], q);
    if s[0] == '?' && !quoted {
      assert ("%s" + rest)[2..] == rest;
    } else if !quoted && |s| >= 2 && s[0] == '%' && s[1] == 's' {
      assert s[1..][1..] == s[2..] && rest == "s" + Forward(s[2..], q);
      assert (['%'] + rest)[2..] == Forward(s[2..], q);
    } else {
      assert ([s[0]] + rest)[1..] == rest;
      assert s[0] == '%' && !quoted && rest != "" ==> rest[0] != 's' by {
        if |s| >= 2 {
          assert s[1..][0] == s[1];
        }
      }
    }
  }

  lemma {:induction false} RestoresForward(s: string, quoted: bool)
    requires NoMarkerFrom(s, quoted)
    ensures Restored(Forward(s, quoted), quoted) == s
  {
    if s != "" {
      RestoredStep(s, quoted);
      RestoresForward(s[1..], if s[0] == '\'' then !quoted else quoted);
      assert s == [s[0]] + s[1..];
    }
  }

  /** A `%s` of the statement's own is turned into `?` and shortens the result. */
  lemma {:induction false} RestoringShortens(s: string, quoted: bool)
    ensures |Restored(Forward(s, quoted), quoted)| <= |s|
    ensures !NoMarkerFrom(s, quoted) ==> |Restored(Forward(s, quoted), quoted)| < |s|
    decreases |s|
  {
    if s != "" {
      var q := if s[0] == '\'' then !quoted else quoted;
      RestoredStep(s, quoted);
      RestoringShortens(s[1..], q);
      if |s| >= 2 {
        RestoringShortens(s[2..], q);
      }
    }
  }

  lemma {:induction false} NoMarkerReturns(s: string, n: nat)
    requires n <= |s| && NoMarkerFrom(s[n..], Quoted(s, n))
    ensures forall i | n <= i < |s| - 1 && s[i] == '%' && s[i + 1] == 's' :: Quoted(s, i)
    decreases |s| - n
  {
    if n < |s| {
      assert s[n..][1..] == s[n + 1..];
      assert Quotes(s, n + 1) == Quotes(s, n) + if s[n] == '\'' then 1 else 0;
      NoMarkerReturns(s, n + 1);
      if n < |s| - 1 && s[n] == '%' && s[n + 1] == 's' {
        assert s[n..][0] == '%' && s[n..][1] == 's';
      }
    }
  }

  lemma NoMarkerBothWays(s: string)
    ensures NoMarker(s) <==> NoMarkerFrom(s, false)
  {
    assert s[0..] == s;
    if NoMarker(s) {
      NoMarkerAgrees(s, 0);
    }
    if NoMarkerFrom(s, false) {
      NoMarkerReturns(s, 0);
    }
  }

  /** Mapping the placeholders back recovers the statement exactly when it had no unquoted `%s`. */
  lemma TranslationIsReversible(s: string)
    ensures Restored(Translated(s, |s|), false) == s <==> NoMarker(s)
  {
    var out := Forward(s, false);
    assert out == Translated(s, |s|) by { ForwardAgrees(s); }
    NoMarkerBothWays(s);
    RestoringShortens(s, false);
    if NoMarkerFrom(s, false) {
      RestoresForward(s, false);
    }
  }
}
