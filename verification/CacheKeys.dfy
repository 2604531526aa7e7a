/** The keys of the response cache (internal/middleware/cache.go): what equal keys say about two requests. */
module CacheKeys {
  /** Headers are kept by canonical name, each with the values it was sent with. */
  datatype Request = Request(verb: string, host: string, uri: string, headers: map<string, seq<string>>)

  /** The first value of a header; an absent one reads as empty. */
  function Get(r: Request, name: string): string {
    if name in r.headers && r.headers[name] != [] then r.headers[name][0] else ""
  }

  /** A method or host holds no blank. A request URI may: HTTP/2 and HTTP/3 carry one in a raw query. */
  predicate WellFormed(r: Request) { ' ' !in r.verb && ' ' !in r.host }

  predicate Blank(c: char) { c == ' ' || 9 <= c as int <= 13 }

  predicate IsToken(c: char) {
    || '0' <= c <= '9' || 'A' <= c <= 'Z' || '^' <= c <= 'z' || '#' <= c <= '\''
    || c == '!' || c == '*' || c == '+' || c == '-' || c == '.' || c == '|' || c == '~'
  }

  /** A name that is no token is left as it is; in others a letter is a capital first and after a dash only. */
  predicate Canonical(n: string) { !AllTokens(n) || forall i :: 0 <= i < |n| ==> Cased(n, i) }

  predicate AllTokens(n: string) { forall i :: 0 <= i < |n| ==> IsToken(n[i]) }

  predicate Cased(n: string, i: nat)
    requires i < |n|
  {
    if i == 0 || n[i - 1] == '-' then !('a' <= n[i] <= 'z') else !('A' <= n[i] <= 'Z')
  }

  /** What the Vary header is taken apart into: it is split at commas, trimmed and made canonical. */
  predicate Named(n: string) { n != "" && ',' !in n && !Blank(n[0]) && !Blank(n[|n| - 1]) && Canonical(n) }

  predicate Parsed(names: seq<string>) { forall n :: n in names ==> Named(n) }

  /** A star among the names forbids storing. */
  predicate Usable(names: seq<string>) { Parsed(names) && "*" !in names }

  function BaseKey(r: Request): string { r.verb + " " + (r.host + " " + r.uri) }

  /** The values of the varied headers from the i-th on. */
  function Pairs(names: seq<string>, r: Request, i: nat): string
    requires i <= |names|
    decreases |names| - i
  {
    if i == |names| then "" else names[i] + "=" + (Get(r, names[i]) + ";" + Pairs(names, r, i + 1))
  }

  function VaryKey(names: seq<string>, r: Request): (s: string)
    ensures s == "" || " vary:" <= s
  {
    if names == [] then "" else " vary:" + Pairs(names, r, 0)
  }

  // ----- Taking a key apart ------------------------------------------------------------------

  lemma FirstSeparator(c: char, a: string, x: string, b: string, y: string)
    requires c !in a && c !in b && a + [c] + x == b + [c] + y
    ensures a == b && x == y
  {
    var s := a + [c] + x;
    assert s[|a|] == c == s[|b|];
    assert forall k :: 0 <= k < |a| ==> s[k] == a[k];
    assert forall k :: 0 <= k < |b| ==> s[k] == b[k];
    assert a == s[..|a|] && b == s[..|b|];
    assert x == s[|a| + 1..] && y == s[|b| + 1..];
  }

  lemma KeyText(r: Request, s: string)
    ensures BaseKey(r) + s == r.verb + [' '] + (r.host + [' '] + (r.uri + s))
  {
    assert BaseKey(r) + s == r.verb + [' '] + ((r.host + [' '] + r.uri) + s);
  }

  /** Equal keys have the same method and host, and all that follows is the same text. */
  lemma KeyParts(r: Request, s: string, q: Request, t: string)
    requires WellFormed(r) && WellFormed(q) && BaseKey(r) + s == BaseKey(q) + t
    ensures r.verb == q.verb && r.host == q.host && r.uri + s == q.uri + t
  {
    KeyText(r, s);
    KeyText(q, t);
    FirstSeparator(' ', r.verb, r.host + [' '] + (r.uri + s), q.verb, q.host + [' '] + (q.uri + t));
    FirstSeparator(' ', r.host, r.uri + s, q.host, q.uri + t);
  }

  lemma BaseKeyTellsUri(r: Request, q: Request)
    requires WellFormed(r) && WellFormed(q) && r.uri != q.uri
    ensures BaseKey(r) != BaseKey(q)
  {
    assert BaseKey(r) + "" == BaseKey(r) && BaseKey(q) + "" == BaseKey(q);
    assert r.uri + "" == r.uri && q.uri + "" == q.uri;
    if BaseKey(r) == BaseKey(q) { KeyParts(r, "", q, ""); }
  }

  /** A text that can begin the values of varied headers: it holds a name, or may still become one. */
  predicate Reads(z: string) {
    && z != "" && !Blank(z[0])
    && (',' !in z || exists e :: 0 < e < |z| && z[e] == '=' && Usable([z[..e]]))
  }

  predicate Continues(u: string, v: string) { u + " vary:" <= v && Reads(v[|u| + 6..]) }

  /** One URI continues the other as a Vary suffix can. */
  predicate Confusable(u: string, v: string) { Continues(u, v) || Continues(v, u) }

  lemma Shifted(u: string, s: string, v: string, t: string)
    requires |u| <= |v| && u + s == v + t
    ensures v == u + s[..|v| - |u|] && t == s[|v| - |u|..]
  {
    var x, d := u + s, |v| - |u|;
    assert v == x[..|v|] && t == x[|v|..];
    assert x[|u|..] == s && x[..|u|] == u;
  }

  lemma Longer(u: string, s: string, v: string, t: string)
    requires |u| < |v| && u + s == v + t && (s == "" || " vary:" <= s) && (t == "" || " vary:" <= t)
    ensures u + " vary:" <= v && s == " vary:" + (v[|u| + 6..] + t)
  {
    var d := |v| - |u|;
    Shifted(u, s, v, t);
    assert forall k :: 1 <= k < 6 ==> s[k] == " vary:"[k] != ' ';
    assert t != "" ==> s[d] == ' ';
    assert d >= 6;
    assert s[..d] == " vary:" + s[6..d] && v[|u| + 6..] == s[6..d];
  }

  /** The first name of a list ends inside z, or z is the beginning of it. */
  lemma ListReads(names: seq<string>, r: Request, z: string, t: string)
    requires names != [] && Usable(names) && Pairs(names, r, 0) == z + t && (t == "" || t[0] == ' ')
    ensures Reads(z)
  {
    var n, s := names[0], z + t;
    assert forall k :: 0 <= k < |n| ==> s[k] == n[k];
    assert s[|n|] == '=';
    assert z == "" ==> s == t;
    assert Named(n);
    if |n| < |z| {
      assert z[..|n|] == n;
    } else {
      assert forall k :: 0 <= k < |z| ==> z[k] == n[k];
    }
  }

  lemma LongerContinues(u: string, names: seq<string>, r: Request, v: string, others: seq<string>, q: Request)
    requires |u| < |v| && u + VaryKey(names, r) == v + VaryKey(others, q) && Usable(names)
    ensures Continues(u, v)
  {
    var s, t := VaryKey(names, r), VaryKey(others, q);
    Longer(u, s, v, t);
    assert s[6..] == Pairs(names, r, 0) && s[6..] == v[|u| + 6..] + t;
    ListReads(names, r, v[|u| + 6..], t);
  }

  /** Equal texts after the host come from one URI and one suffix, or from confusable URIs. */
  lemma UriParts(u: string, names: seq<string>, r: Request, v: string, others: seq<string>, q: Request)
    requires u + VaryKey(names, r) == v + VaryKey(others, q) && Usable(names) && Usable(others)
    ensures (u == v && VaryKey(names, r) == VaryKey(others, q)) || Confusable(u, v)
  {
    var s, t := VaryKey(names, r), VaryKey(others, q);
    if |u| < |v| {
      LongerContinues(u, names, r, v, others, q);
    } else if |v| < |u| {
      LongerContinues(v, others, q, u, names, r);
    } else {
      assert u == (u + s)[..|u|] && v == (v + t)[..|u|];
      assert s == (u + s)[|u|..] && t == (v + t)[|u|..];
    }
  }

  ghost predicate SameKey(r: Request, names: seq<string>, q: Request, others: seq<string>) {
    && WellFormed(r) && WellFormed(q) && Usable(names) && Usable(others)
    && BaseKey(r) + VaryKey(names, r) == BaseKey(q) + VaryKey(others, q)
  }

  /** Requests with these URIs can have one key, under Vary lists that can be stored. */
  ghost predicate CanShare(u: string, v: string) {
    exists names, others, r, q :: SameKey(r, names, q, others) && r.uri == u && q.uri == v
  }

  lemma OnePair(n: string, r: Request)
    ensures VaryKey([n], r) == " vary:" + (n + "=" + (Get(r, n) + ";"))
  {
    assert Pairs([n], r, 1) == "";
    assert Get(r, n) + ";" + "" == Get(r, n) + ";";
  }

  lemma SharedBy(u: string, v: string, name: string, value: string)
    requires u + " vary:" <= v && Usable([name])
    requires name + "=" + (value + ";") == v[|u| + 6..] + " vary:A=;"
    ensures CanShare(u, v) && CanShare(v, u)
  {
    var r, q := Request("", "", u, map[name := [value]]), Request("", "", v, map[]);
    OnePair(name, r);
    OnePair("A", q);
    assert v == u + " vary:" + v[|u| + 6..];
    assert " vary:" + ("A" + "=" + ("" + ";")) == " vary:A=;";
    assert u + VaryKey([name], r) == v + VaryKey(["A"], q);
    KeyText(r, VaryKey([name], r));
    KeyText(q, VaryKey(["A"], q));
    assert SameKey(r, [name], q, ["A"]) && SameKey(q, ["A"], r, [name]);
  }

  lemma Shared(u: string, v: string)
    requires Continues(u, v)
    ensures CanShare(u, v) && CanShare(v, u)
  {
    var z := v[|u| + 6..];
    if ',' in z {
      var e :| 0 < e < |z| && z[e] == '=' && Usable([z[..e]]);
      var value := z[e + 1..] + " vary:A=";
      assert z == z[..e] + "=" + z[e + 1..];
      assert z[..e] + "=" + (value + ";") == z + " vary:A=;";
      SharedBy(u, v, z[..e], value);
    } else {
      var name := z + " vary:A";
      assert !IsToken(name[|z|]);
      assert name + "=" + ("" + ";") == z + " vary:A=;";
      SharedBy(u, v, name, "");
    }
  }

  /** Different URIs can meet in one key exactly when the longer continues the shorter as a Vary suffix can. */
  lemma CanShareIff(u: string, v: string)
    requires u != v
    ensures CanShare(u, v) <==> Confusable(u, v)
  {
    if CanShare(u, v) {
      var names, others, r, q :| SameKey(r, names, q, others) && r.uri == u && q.uri == v;
      KeyParts(r, VaryKey(names, r), q, VaryKey(others, q));
      UriParts(u, names, r, v, others, q);
    }
    if Continues(u, v) { Shared(u, v); }
    if Continues(v, u) { Shared(v, u); }
  }

  // ----- The Vary suffix ---------------------------------------------------------------------

  ghost predicate Agree(names: seq<string>, r: Request, q: Request, i: nat) {
    forall k :: i <= k < |names| ==> Get(r, names[k]) == Get(q, names[k])
  }

  /** No varied value but the last holds the character that ends a value. */
  predicate Separable(names: seq<string>, r: Request) {
    forall k :: 0 <= k < |names| - 1 ==> ';' !in Get(r, names[k])
  }

  lemma {:induction false} PairsTellValues(names: seq<string>, r: Request, q: Request, i: nat)
    requires i <= |names| && Separable(names, r) && Separable(names, q)
    requires Pairs(names, r, i) == Pairs(names, q, i)
    ensures Agree(names, r, q, i)
    decreases |names| - i
  {
    if i < |names| {
      var n, v, w := names[i] + "=", Get(r, names[i]), Get(q, names[i]);
      var x, y := Pairs(names, r, i + 1), Pairs(names, q, i + 1);
      assert Pairs(names, r, i)[|n|..] == v + ";" + x && Pairs(names, q, i)[|n|..] == w + ";" + y;
      if i == |names| - 1 {
        assert v + ";" + x == v + ";" && w + ";" + y == w + ";";
        assert v == (v + ";")[..|v|] && w == (w + ";")[..|w|];
      } else {
        FirstSeparator(';', v, x, w, y);
      }
      PairsTellValues(names, r, q, i + 1);
    }
  }

  lemma VaryKeyTellsValues(names: seq<string>, r: Request, q: Request)
    requires VaryKey(names, r) == VaryKey(names, q) && Separable(names, r) && Separable(names, q)
    ensures Agree(names, r, q, 0)
  {
    if names != [] {
      assert VaryKey(names, r)[|" vary:"|..] == Pairs(names, r, 0);
      assert VaryKey(names, q)[|" vary:"|..] == Pairs(names, q, 0);
      PairsTellValues(names, r, q, 0);
    }
  }

  ghost predicate Faithful(names: seq<string>) {
    forall r, q {:trigger Agree(names, r, q, 0)} :: VaryKey(names, r) == VaryKey(names, q) ==> Agree(names, r, q, 0)
  }

  lemma {:induction false} SamePairs(names: seq<string>, r: Request, q: Request, i: nat)
    requires i <= |names| && Agree(names, r, q, i)
    ensures Pairs(names, r, i) == Pairs(names, q, i)
    decreases |names| - i
  {
    if i < |names| { SamePairs(names, r, q, i + 1); }
  }

  /** A value that spells the next header's name can stand before that name or after it. */
  lemma Forged(b: string, rest: string)
    ensures var forged := ";" + b + "=";
            forged + ";" + (b + "=" + ("" + ";" + rest)) == "" + ";" + (b + "=" + (forged + ";" + rest))
  {
    var forged := ";" + b + "=";
    calc {
      forged + ";" + (b + "=" + ("" + ";" + rest));
    == { assert "" + ";" + rest == ";" + rest; }
      forged + (";" + b + "=") + (";" + rest);
    ==
      "" + ";" + (b + "=" + (forged + ";" + rest));
    }
  }

  /** The name stands at position j and nowhere else. */
  ghost predicate OnlyAt(names: seq<string>, name: string, j: nat) {
    j < |names| && names[j] == name && forall k :: 0 <= k < |names| && k != j ==> names[k] != name
  }

  /** What comes before a position is the same if the values there are. */
  lemma {:induction false} SamePairsFrom(names: seq<string>, r: Request, q: Request, i: nat, j: nat)
    requires i <= j <= |names| && Pairs(names, r, j) == Pairs(names, q, j)
    requires forall k :: i <= k < j ==> Get(r, names[k]) == Get(q, names[k])
    ensures Pairs(names, r, i) == Pairs(names, q, i)
    decreases j - i
  {
    if i < j { SamePairsFrom(names, r, q, i + 1, j); }
  }

  /** With two varied headers next to each other a value holding ';' can pass for the other header's. */
  lemma NeighboursClash(names: seq<string>, j: nat)
    requires j + 1 < |names| && OnlyAt(names, names[j], j) && OnlyAt(names, names[j + 1], j + 1)
    ensures !Faithful(names)
  {
    var a, b := names[j], names[j + 1];
    var forged := ";" + b + "=";
    var r := Request("GET", "h", "/", map[a := [forged]]);
    var q := Request("GET", "h", "/", map[b := [forged]]);
    assert Get(r, a) == forged && Get(r, b) == "" && Get(q, a) == "" && Get(q, b) == forged;
    assert forall k :: 0 <= k < |names| && k != j && k != j + 1 ==> Get(r, names[k]) == "" == Get(q, names[k]);
    NeighbourKeys(names, r, q, j);
    assert !Agree(names, r, q, 0);
  }

  lemma NeighbourKeys(names: seq<string>, r: Request, q: Request, j: nat)
    requires j + 1 < |names|
    requires forall k :: 0 <= k < |names| && k != j && k != j + 1 ==> Get(r, names[k]) == Get(q, names[k])
    requires Get(r, names[j]) == ";" + names[j + 1] + "=" == Get(q, names[j + 1])
    requires Get(r, names[j + 1]) == "" == Get(q, names[j])
    ensures VaryKey(names, r) == VaryKey(names, q)
  {
    SamePairs(names, r, q, j + 2);
    ForgedPairs(names, r, q, j);
    SamePairsFrom(names, r, q, 0, j);
  }

  lemma ForgedPairs(names: seq<string>, r: Request, q: Request, j: nat)
    requires j + 1 < |names| && Pairs(names, r, j + 2) == Pairs(names, q, j + 2)
    requires Get(r, names[j]) == ";" + names[j + 1] + "=" == Get(q, names[j + 1])
    requires Get(r, names[j + 1]) == "" == Get(q, names[j])
    ensures Pairs(names, r, j) == Pairs(names, q, j)
  {
    var a, b, rest := names[j], names[j + 1], Pairs(names, r, j + 2);
    var forged := ";" + b + "=";
    assert Pairs(names, r, j + 1) == b + "=" + ("" + ";" + rest);
    assert Pairs(names, q, j + 1) == b + "=" + (forged + ";" + rest);
    Forged(b, rest);
    assert Pairs(names, r, j) == a + "=" + (forged + ";" + (b + "=" + ("" + ";" + rest)));
    assert Pairs(names, q, j) == a + "=" + ("" + ";" + (b + "=" + (forged + ";" + rest)));
  }

  ghost predicate OneName(names: seq<string>) { forall j, k :: 0 <= j < k < |names| ==> names[j] == names[k] }

  /** One header, however often it is named, is told apart: the length of the key gives the value's. */
  lemma {:induction false} OneNameLength(names: seq<string>, r: Request, i: nat)
    requires OneName(names) && i < |names|
    ensures |Pairs(names, r, i)| == (|names| - i) * (|names[0]| + 2 + |Get(r, names[0])|)
    decreases |names| - i
  {
    assert names[i] == names[0];
    if i + 1 < |names| {
      OneNameLength(names, r, i + 1);
    } else {
      assert Pairs(names, r, i + 1) == "";
    }
  }

  lemma OneNameIsFaithful(names: seq<string>, r: Request, q: Request)
    requires OneName(names) && VaryKey(names, r) == VaryKey(names, q)
    ensures Agree(names, r, q, 0)
  {
    if names != [] {
      var n, v, w := names[0] + "=", Get(r, names[0]), Get(q, names[0]);
      assert VaryKey(names, r)[|" vary:"|..] == Pairs(names, r, 0) == Pairs(names, q, 0);
      OneNameLength(names, r, 0);
      OneNameLength(names, q, 0);
      SameFactor(|names|, |n| + 1 + |v|, |n| + 1 + |w|);
      var x, y := Pairs(names, r, 1), Pairs(names, q, 1);
      assert Pairs(names, r, 0)[|n|..] == v + ";" + x && Pairs(names, q, 0)[|n|..] == w + ";" + y;
      assert v == (v + ";" + x)[..|v|] && w == (w + ";" + y)[..|w|];
      assert forall k :: 0 <= k < |names| ==> names[k] == names[0];
    }
  }

  lemma SameFactor(n: int, a: int, b: int)
    requires 0 < n && n * a == n * b
    ensures a == b
  {
    assert a < b ==> n * a < n * b;
    assert b < a ==> n * b < n * a;
  }

  /** For names that differ, keys tell all varied values apart exactly when there is at most one. */
  lemma FaithfulIff(names: seq<string>)
    requires forall j, k :: 0 <= j < k < |names| ==> names[j] != names[k]
    ensures Faithful(names) <==> |names| <= 1
  {
    if |names| >= 2 {
      NeighboursClash(names, 0);
    } else {
      forall r, q | VaryKey(names, r) == VaryKey(names, q) ensures Agree(names, r, q, 0) {
        OneNameIsFaithful(names, r, q);
      }
    }
  }

  /** Only the first value of a header goes into the key. */
  lemma LaterValuesUnseen(names: seq<string>, r: Request, q: Request)
    requires Agree(names, r, q, 0)
    ensures VaryKey(names, r) == VaryKey(names, q)
  {
    SamePairs(names, r, q, 0);
  }

  /** Requests that differ in a varied header beyond its first value share every key. */
  lemma SecondValueClashes(name: string, first: string)
    ensures exists r: Request, q: Request ::
              && r.headers.Keys == q.headers.Keys == {name} && r.headers[name] != q.headers[name]
              && BaseKey(r) == BaseKey(q) && VaryKey([name], r) == VaryKey([name], q)
  {
    var r := Request("GET", "h", "/", map[name := [first]]);
    var q := Request("GET", "h", "/", map[name := [first, ""]]);
    assert |r.headers[name]| != |q.headers[name]|;
    assert Get(r, name) == first == Get(q, name);
    LaterValuesUnseen([name], r, q);
    assert r.headers.Keys == q.headers.Keys == {name};
  }
}
