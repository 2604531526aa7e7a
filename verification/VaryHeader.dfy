/**
  Taking a Vary header apart (parseVary of internal/middleware/cache.go): which lists of names it
  yields. Blanks are those of ASCII.
*/
module VaryHeader {
  import opened CacheKeys

  /** A text is added to the last part. */
  function Added(parts: seq<string>, w: string): seq<string>
    requires parts != []
  {
    parts[|parts| - 1 := parts[|parts| - 1] + w]
  }

  /** The parts between commas of the first n characters. */
  function Split(v: string, n: nat): (parts: seq<string>)
    requires n <= |v|
    ensures parts != [] && forall p :: p in parts ==> ',' !in p
  {
    if n == 0 then [""]
    else
      var before := Split(v, n - 1);
      if v[n - 1] == ',' then before + [""] else Added(before, [v[n - 1]])
  }

  function Trim(s: string): (t: string)
    ensures t == "" || (!Blank(t[0]) && !Blank(t[|t| - 1]))
    ensures forall c :: c in t ==> c in s
    ensures s != "" && !Blank(s[0]) && !Blank(s[|s| - 1]) ==> t == s
  {
    if s == "" then ""
    else if Blank(s[0]) then Trim(s[1..])
    else if Blank(s[|s| - 1]) then Trim(s[..|s| - 1])
    else s
  }

  function Upper(c: char): char { if 'a' <= c <= 'z' then (c as int - 32) as char else c }

  function Lower(c: char): char { if 'A' <= c <= 'Z' then (c as int + 32) as char else c }

  function Recased(n: string, i: nat): (c: char)
    requires i < |n|
    ensures Cased(n, i) <==> c == n[i]
    ensures IsToken(n[i]) ==> IsToken(c) && (c == '-' <==> n[i] == '-')
  {
    if i == 0 || n[i - 1] == '-' then Upper(n[i]) else Lower(n[i])
  }

  function CanonicalHeaderKey(n: string): (c: string)
    ensures |c| == |n|
  {
    if AllTokens(n) then seq(|n|, i requires 0 <= i < |n| => Recased(n, i)) else n
  }

  lemma BecomesCanonical(n: string)
    ensures Canonical(CanonicalHeaderKey(n)) && (Canonical(n) ==> CanonicalHeaderKey(n) == n)
  {
    var c := CanonicalHeaderKey(n);
    if AllTokens(n) {
      forall i | 0 <= i < |n| ensures Cased(c, i) {
        assert c[i] == Recased(n, i) && (i > 0 ==> c[i - 1] == Recased(n, i - 1));
      }
      if Canonical(n) { assert forall i :: 0 <= i < |n| ==> Cased(n, i) && c[i] == n[i]; }
    }
  }

  lemma TokensStay(n: string, i: nat)
    requires i < |n| && AllTokens(n)
    ensures IsToken(CanonicalHeaderKey(n)[i])
  {
    assert CanonicalHeaderKey(n)[i] == Recased(n, i);
  }

  lemma KeepsShape(t: string)
    requires t != "" && ',' !in t && !Blank(t[0]) && !Blank(t[|t| - 1])
    ensures var c := CanonicalHeaderKey(t);
            c != "" && ',' !in c && !Blank(c[0]) && !Blank(c[|c| - 1])
  {
    if AllTokens(t) {
      forall i | 0 <= i < |t| ensures IsToken(CanonicalHeaderKey(t)[i]) { TokensStay(t, i); }
    }
  }

  lemma NamedIs(part: string)
    requires ',' !in part && Trim(part) != ""
    ensures Named(CanonicalHeaderKey(Trim(part)))
  {
    KeepsShape(Trim(part));
    BecomesCanonical(Trim(part));
  }

  function Names(parts: seq<string>, n: nat): seq<string>
    requires n <= |parts|
  {
    if n == 0 then []
    else
      var name := CanonicalHeaderKey(Trim(parts[n - 1]));
      Names(parts, n - 1) + if name != "" then [name] else []
  }

  lemma {:induction false} NamesAreNamed(parts: seq<string>, n: nat)
    requires n <= |parts| && forall p :: p in parts ==> ',' !in p
    ensures Parsed(Names(parts, n))
  {
    if n > 0 {
      NamesAreNamed(parts, n - 1);
      if Trim(parts[n - 1]) != "" { NamedIs(parts[n - 1]); }
    }
  }

  /** The list that a header means. */
  function Meant(v: string): seq<string> { Names(Split(v, |v|), |Split(v, |v|)|) }

  method ParseVary(v: string) returns (names: seq<string>)
    ensures names == Meant(v) && Parsed(names)
  {
    names := [];
    var parts := Split(v, |v|);
    for i := 0 to |parts|
      invariant names == Names(parts, i)
    {
      var name := CanonicalHeaderKey(Trim(parts[i]));
      if name != "" { names := names + [name]; }
    }
    NamesAreNamed(parts, |parts|);
  }

  // ----- Every such list can be sent ---------------------------------------------------------

  function Join(names: seq<string>, n: nat): string
    requires n <= |names|
  {
    if n == 0 then "" else if n == 1 then names[0] else Join(names, n - 1) + "," + names[n - 1]
  }

  lemma {:induction false} SplitOfPrefix(v: string, w: string, n: nat)
    requires n <= |v|
    ensures Split(v + w, n) == Split(v, n)
  {
    if n > 0 { SplitOfPrefix(v, w, n - 1); }
  }

  lemma AddedTwice(parts: seq<string>, w: string, x: string)
    requires parts != []
    ensures Added(Added(parts, w), x) == Added(parts, w + x)
  {
    assert parts[|parts| - 1] + w + x == parts[|parts| - 1] + (w + x);
  }

  /** Characters that are no commas are added to the last part. */
  lemma {:induction false} SplitMore(v: string, w: string, n: nat)
    requires n <= |w| && ',' !in w
    ensures Split(v + w, |v| + n) == Added(Split(v, |v|), w[..n])
  {
    var parts := Split(v, |v|);
    if n == 0 {
      SplitOfPrefix(v, w, |v|);
      assert parts[|parts| - 1] + w[..0] == parts[|parts| - 1];
    } else {
      SplitMore(v, w, n - 1);
      assert (v + w)[|v| + n - 1] == w[n - 1];
      AddedTwice(parts, w[..n - 1], [w[n - 1]]);
      assert w[..n] == w[..n - 1] + [w[n - 1]];
    }
  }

  /** One more name after a comma is one more part. */
  lemma SplitOneMore(v: string, w: string)
    requires ',' !in w
    ensures Split(v + "," + w, |v + "," + w|) == Split(v, |v|) + [w]
  {
    var parts, u := Split(v, |v|), v + ",";
    SplitOfPrefix(v, ",", |v|);
    assert Split(u, |u|) == parts + [""];
    SplitMore(u, w, |w|);
    assert w[..|w|] == w == "" + w;
    assert Added(parts + [""], w) == parts + [w];
  }

  lemma SplitFirst(w: string)
    requires ',' !in w
    ensures Split(w, |w|) == [w]
  {
    SplitMore("", w, |w|);
    assert Split("", 0) == [""] && w[..|w|] == w == "" + w;
    assert Added([""], w) == [w];
  }

  lemma {:induction false} SplitOfJoin(names: seq<string>, n: nat)
    requires 0 < n <= |names| && forall w :: w in names ==> ',' !in w
    ensures Split(Join(names, n), |Join(names, n)|) == names[..n]
  {
    var w := names[n - 1];
    if n == 1 {
      SplitFirst(w);
      assert names[..1] == [w];
    } else {
      SplitOfJoin(names, n - 1);
      SplitOneMore(Join(names, n - 1), w);
      assert names[..n] == names[..n - 1] + [w];
    }
  }

  lemma NamedStays(n: string)
    requires Named(n)
    ensures CanonicalHeaderKey(Trim(n)) == n
  {
    BecomesCanonical(n);
  }

  lemma {:induction false} NamesOfNames(names: seq<string>, n: nat)
    requires Parsed(names) && n <= |names|
    ensures Names(names, n) == names[..n]
  {
    if n > 0 {
      NamesOfNames(names, n - 1);
      assert Named(names[n - 1]);
      NamedStays(names[n - 1]);
    }
  }

  /** Joining with commas and parsing gives back every list of trimmed and canonical names. */
  lemma RoundTrip(names: seq<string>)
    requires Parsed(names)
    ensures Meant(Join(names, |names|)) == names
  {
    if names == [] {
      assert Names([""], 0) == [];
      assert CanonicalHeaderKey(Trim("")) == "";
    } else {
      assert forall w :: w in names ==> Named(w);
      SplitOfJoin(names, |names|);
      NamesOfNames(names, |names|);
      assert names[..|names|] == names;
    }
  }

  /** The lists that parsing yields are exactly those whose names are trimmed, canonical and free of commas. */
  lemma ParsedIff(names: seq<string>)
    ensures Parsed(names) <==> exists v :: Meant(v) == names
  {
    if Parsed(names) { RoundTrip(names); }
    if v :| Meant(v) == names { NamesAreNamed(Split(v, |v|), |Split(v, |v|)|); }
  }
}
