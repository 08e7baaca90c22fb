/**
 The values of Bencode.cc: how they are packed, parsed back and measured. A byte is a char; a
 dictionary is the map of its entries, whatever order its hash table keeps them in.
 */
module Bencode {
  import opened Lexical

  datatype BeNode =
    | Str(str: string)
    | Int(num: int)
    | List(list: seq<BeNode>)
    | Dict(dict: map<string, BeNode>)

  // ---------------------------------------------------------------- numbers

  predicate IsDigit(c: char) { '0' <= c <= '9' }

  function Value(c: char): nat
    requires IsDigit(c)
  {
    c as int - 48
  }

  function Digit(d: nat): (c: char)
    requires d < 10
    ensures IsDigit(c) && Value(c) == d
  {
    (d + 48) as char
  }

  function Digits(n: nat): (s: string)
    ensures s != "" && forall i :: 0 <= i < |s| ==> IsDigit(s[i])
  {
    if n < 10 then [Digit(n)] else Digits(n / 10) + [Digit(n % 10)]
  }

  function Decimal(n: int): string {
    if n < 0 then "-" + Digits(-n) else Digits(n)
  }

  const MAX: int := 0x7fff_ffff_ffff_ffff

  // A 64-bit result.
  function Wrap(n: int): int {
    var m := n % 0x1_0000_0000_0000_0000;
    if m > MAX then m - 0x1_0000_0000_0000_0000 else m
  }

  // ---------------------------------------------------------------- packing

  function PackStr(s: string): string { Digits(|s|) + ":" + s }

  predicate Ascending(ks: seq<string>) {
    forall i, j :: 0 <= i < j < |ks| ==> Less(ks[i], ks[j])
  }

  ghost predicate IsLeast(k: string, s: set<string>) {
    k in s && forall j :: j in s && j != k ==> Less(k, j)
  }

  lemma {:induction false} LeastExists(s: set<string>)
    requires s != {}
    ensures exists k :: IsLeast(k, s)
  {
    var k :| k in s;
    if s == {k} {
      assert IsLeast(k, s);
    } else {
      LeastExists(s - {k});
      var l :| IsLeast(l, s - {k});
      LessTotal(k, l);
      forall j | j in s && j != k && Less(k, l) ensures Less(k, j) {
        if j != l { LessTransitive(k, l, j); }
      }
      assert IsLeast(if Less(k, l) then k else l, s);
    }
  }

  ghost function Least(s: set<string>): (k: string)
    requires s != {}
    ensures IsLeast(k, s)
  {
    LeastExists(s);
    var k :| IsLeast(k, s);
    k
  }

  // The keys in the order in which they are packed.
  ghost function Sorted(s: set<string>): (ks: seq<string>)
    ensures forall k :: k in ks <==> k in s
    ensures Ascending(ks)
  {
    if s == {} then []
    else
      var k := Least(s);
      var ks := [k] + Sorted(s - {k});
      assert forall j :: j in ks <==> j in s;
      assert Ascending(ks) by {
        forall i, j | 0 <= i < j < |ks| ensures Less(ks[i], ks[j]) {
          if i == 0 { NoneTwice(s - {k}, ks[j], k); }
        }
      }
      ks
  }

  lemma NoneTwice(s: set<string>, j: string, k: string)
    ensures j in s && k !in s ==> j != k
  {
  }

  // There is only one ascending order.
  lemma {:induction false} SortedIsTheOne(s: set<string>, ks: seq<string>)
    requires Ascending(ks) && forall k :: k in ks <==> k in s
    ensures ks == Sorted(s)
  {
    if ks == [] {
      assert s == {};
    } else {
      assert ks[0] in s;
      var k := Least(s);
      assert k in ks;
      assert ks[0] in s;
      var i :| 0 <= i < |ks| && ks[i] == k;
      if i > 0 {
        LessTransitive(k, ks[0], k);
        LessIrreflexive(k);
      }
      forall j ensures j in ks[1..] <==> j in s - {k} {
        if j in ks[1..] {
          var n :| 0 <= n < |ks[1..]| && ks[1..][n] == j;
          assert j == ks[n + 1] && j in ks;
          LessIrreflexive(k);
        }
      }
      SortedIsTheOne(s - {k}, ks[1..]);
    }
  }

  ghost function Pack(x: BeNode): string
    decreases x
  {
    match x
    case Str(s) => PackStr(s)
    case Int(n) => "i" + Decimal(n) + "e"
    case List(l) => "l" + PackAll(l) + "e"
    case Dict(m) => "d" + PackEntries(x, Sorted(m.Keys)) + "e"
  }

  ghost function PackAll(l: seq<BeNode>): string
    decreases l
  {
    if l == [] then "" else Pack(l[0]) + PackAll(l[1..])
  }

  ghost function PackEntries(d: BeNode, ks: seq<string>): string
    requires d.Dict? && forall k :: k in ks ==> k in d.dict
    decreases d, |ks|
  {
    if ks == [] then "" else PackStr(ks[0]) + Pack(d.dict[ks[0]]) + PackEntries(d, ks[1..])
  }

  // ---------------------------------------------------------------- parsing

  /** A value and how many characters are left after it, or where the parser gave up. */
  datatype Parsed = Done(node: BeNode, rest: nat) | Bad(rest: nat)

  // The digits of a number, as long as something follows them.
  function TakeDigits(n: int, s: string): (r: (int, string))
    ensures |r.1| <= |s|
    decreases |s|
  {
    if |s| > 1 && IsDigit(s[0]) then TakeDigits(Wrap(n * 10 + Value(s[0])), s[1..]) else (n, s)
  }

  function ParseInt(s: string): (r: Parsed)
    requires s != ""
    ensures r.Done? ==> r.rest < |s|
  {
    var neg := s[0] == '-';
    var t := if neg then s[1..] else s;
    if |t| < 2 then Bad(0)
    else if !IsDigit(t[0]) || (t[0] == '0' && t[1] != 'e') then Bad(|t|)
    else
      var (n, u) := TakeDigits(Value(t[0]), t[1..]);
      if u == "" || u[0] != 'e' then Bad(|u|)
      else Done(Int(if neg then Wrap(-n) else n), |u| - 1)
  }

  // The digits of a length, given up as soon as it exceeds what is left.
  function TakeLength(n: nat, s: string): (r: (bool, nat, string))
    ensures |r.2| <= |s|
    decreases |s|
  {
    if s != "" && IsDigit(s[0]) then
      if n >= |s| then (false, n, s) else TakeLength(n * 10 + Value(s[0]), s[1..])
    else (true, n, s)
  }

  function ParseStr(s: string): (r: Parsed)
    requires s != "" && IsDigit(s[0])
    ensures r.Done? ==> r.node.Str? && r.rest < |s|
  {
    var (ok, n, u) := TakeLength(Value(s[0]), s[1..]);
    if !ok then Bad(0)
    else if u == "" || u[0] != ':' then Bad(|u|)
    else if |u| - 1 < n then Bad(0)
    else Done(Str(u[1..][..n]), |u| - 1 - n)
  }

  function ParseNode(s: string): (r: Parsed)
    ensures r.Done? ==> r.rest < |s|
    decreases |s|, 0
  {
    if |s| < 2 then Bad(0)
    else if s[0] == 'i' then ParseInt(s[1..])
    else if s[0] == 'l' then ParseList(s[1..], [])
    else if s[0] == 'd' then ParseDict(s[1..], map[])
    else if IsDigit(s[0]) then ParseStr(s)
    else Bad(|s|)
  }

  function ParseList(s: string, done: seq<BeNode>): (r: Parsed)
    ensures r.Done? ==> r.rest < |s|
    decreases |s|, 1
  {
    if |s| > 1 && s[0] != 'e' then
      match ParseNode(s)
      case Bad(rest) => Bad(rest)
      case Done(x, rest) => ParseList(s[|s| - rest..], done + [x])
    else if s == "" || s[0] != 'e' then Bad(|s|)
    else Done(List(done), |s| - 1)
  }

  function ParseDict(s: string, done: map<string, BeNode>): (r: Parsed)
    ensures r.Done? ==> r.rest < |s|
    decreases |s|, 1
  {
    if |s| > 1 && s[0] != 'e' then
      match ParseNode(s)
      case Bad(rest) => Bad(rest)
      case Done(k, rest) =>
        if !k.Str? then Bad(|s|)
        else
          var t := s[|s| - rest..];
          match ParseNode(t)
          case Bad(rest') => Bad(rest')
          case Done(x, rest') => ParseDict(t[|t| - rest'..], done[k.str := x])
    else if s == "" || s[0] != 'e' then Bad(|s|)
    else Done(Dict(done), |s| - 1)
  }

  // ---------------------------------------------------------------- numbers read back

  // Reading digits from the left, after the number v.
  function Number(v: nat, ds: string): nat
    requires forall i :: 0 <= i < |ds| ==> IsDigit(ds[i])
    decreases |ds|
  {
    if ds == "" then v else Number(v * 10 + Value(ds[0]), ds[1..])
  }

  lemma {:induction false} NumberLast(v: nat, ds: string, c: char)
    requires (forall i :: 0 <= i < |ds| ==> IsDigit(ds[i])) && IsDigit(c)
    ensures Number(v, ds + [c]) == Number(v, ds) * 10 + Value(c)
    decreases |ds|
  {
    if ds == "" {
      assert (ds + [c])[1..] == "";
    } else {
      assert (ds + [c])[1..] == ds[1..] + [c];
      NumberLast(v * 10 + Value(ds[0]), ds[1..], c);
    }
  }

  lemma {:induction false} NumberGrows(v: nat, ds: string)
    requires forall i :: 0 <= i < |ds| ==> IsDigit(ds[i])
    ensures v <= Number(v, ds)
    decreases |ds|
  {
    if ds != "" { NumberGrows(v * 10 + Value(ds[0]), ds[1..]); }
  }

  lemma {:induction false} DigitsReadBack(n: nat)
    ensures var ds := Digits(n); Number(Value(ds[0]), ds[1..]) == n && (ds[0] == '0' ==> n == 0)
  {
    if n >= 10 {
      DigitsReadBack(n / 10);
      var ds := Digits(n / 10);
      NumberLast(Value(ds[0]), ds[1..], Digit(n % 10));
      assert Digits(n)[1..] == ds[1..] + [Digit(n % 10)];
    } else {
      assert Digits(n)[1..] == "";
    }
  }

  lemma {:induction false} TakeDigitsReads(v: nat, ds: string, u: string)
    requires (forall i :: 0 <= i < |ds| ==> IsDigit(ds[i])) && Number(v, ds) <= MAX && u != "" && !IsDigit(u[0])
    ensures TakeDigits(v, ds + u) == (Number(v, ds), u)
    decreases |ds|
  {
    hide Wrap;
    if ds == "" {
      assert ds + u == u;
    } else {
      var w := v * 10 + Value(ds[0]);
      NumberGrows(w, ds[1..]);
      WrapSmall(w);
      assert (ds + u)[1..] == ds[1..] + u;
      TakeDigitsReads(w, ds[1..], u);
    }
  }

  lemma WrapSmall(n: nat)
    requires n <= MAX
    ensures Wrap(n) == n
  {
  }

  lemma {:induction false} TakeLengthReads(v: nat, ds: string, u: string)
    requires (forall i :: 0 <= i < |ds| ==> IsDigit(ds[i])) && Number(v, ds) < |u| && !IsDigit(u[0])
    ensures TakeLength(v, ds + u) == (true, Number(v, ds), u)
    decreases |ds|
  {
    if ds == "" {
      assert ds + u == u;
    } else {
      NumberGrows(v, ds);
      NumberGrows(v * 10 + Value(ds[0]), ds[1..]);
      assert (ds + u)[1..] == ds[1..] + u;
      TakeLengthReads(v * 10 + Value(ds[0]), ds[1..], u);
    }
  }

  // ---------------------------------------------------------------- there and back

  // Integers are those whose absolute value a 64-bit integer can hold.
  ghost predicate InRange(x: BeNode)
    decreases x
  {
    match x
    case Str(_) => true
    case Int(n) => -MAX <= n <= MAX
    case List(l) => forall i :: 0 <= i < |l| ==> InRange(l[i])
    case Dict(m) => forall k :: k in m ==> InRange(m[k])
  }

  lemma Dispatch(s: string)
    requires |s| >= 2
    ensures s[0] == 'i' ==> ParseNode(s) == ParseInt(s[1..])
    ensures s[0] == 'l' ==> ParseNode(s) == ParseList(s[1..], [])
    ensures s[0] == 'd' ==> ParseNode(s) == ParseDict(s[1..], map[])
    ensures IsDigit(s[0]) ==> ParseNode(s) == ParseStr(s)
  {
    hide ParseInt, ParseList, ParseDict, ParseStr;
  }

  lemma PackStrBegins(s: string)
    ensures |PackStr(s)| >= 2 && IsDigit(PackStr(s)[0])
  {
    hide Digits;
  }

  lemma TailOfJoin(a: string, b: string)
    requires a != ""
    ensures (a + b)[0] == a[0] && (a + b)[1..] == a[1..] + b
  {
  }

  lemma Regroup(a: string, b: string, c: string, d: string)
    ensures a + b + c + d == a + (b + (c + d))
  {
  }

  lemma ParsePackStr(s: string, rest: string)
    ensures ParseNode(PackStr(s) + rest) == Done(Str(s), |rest|)
  {
    hide Digits, ParseNode, TakeLength;
    var ds := Digits(|s|);
    var u := ":" + (s + rest);
    var t := PackStr(s) + rest;
    PackStrBegins(s);
    Regroup(ds, ":", s, rest);
    TailOfJoin(ds, u);
    DigitsReadBack(|s|);
    TakeLengthReads(Value(ds[0]), ds[1..], u);
    assert u[1..] == s + rest;
    Dispatch(t);
  }

  lemma ParsePackInt(n: int, rest: string)
    requires -MAX <= n <= MAX
    ensures ParseNode("i" + Decimal(n) + "e" + rest) == Done(Int(n), |rest|)
  {
    hide Decimal, ParseInt, ParseNode;
    var s := "i" + Decimal(n) + "e" + rest;
    var v := Decimal(n) + ("e" + rest);
    Regroup("i", Decimal(n), "e", rest);
    TailOfJoin("i", v);
    assert "i"[1..] + v == v;
    ParseSigned(n, rest);
    Dispatch(s);
  }

  lemma ParseSigned(n: int, rest: string)
    requires -MAX <= n <= MAX
    ensures ParseInt(Decimal(n) + ("e" + rest)) == Done(Int(n), |rest|)
  {
    hide Digits, TakeDigits, Number;
    var m := if n < 0 then -n else n;
    var ds := Digits(m);
    var u := "e" + rest;
    var t := ds + u;
    DigitsReadBack(m);
    TailOfJoin(ds, u);
    TakeDigitsReads(Value(ds[0]), ds[1..], u);
    assert m == 0 ==> t[1] == 'e' by { ZeroIsOneDigit(); }
    if n < 0 {
      Regroup("", "-", ds, u);
      assert "" + ("-" + t) == "-" + t && "" + "-" == "-";
      TailOfJoin("-", t);
      assert "-"[1..] + t == t;
    }
  }

  lemma ZeroIsOneDigit()
    ensures Digits(0) == "0"
  {
  }

  // Whatever is packed begins with something else than the end mark.
  lemma PackBegins(x: BeNode)
    ensures var s := Pack(x); |s| >= 2 && s[0] != 'e'
  {
    match x
    case Str(s) => PackStrBegins(s);
    case Int(n) =>
    case List(l) =>
    case Dict(m) =>
  }

  lemma {:induction false} ParsePack(x: BeNode, rest: string)
    requires InRange(x)
    ensures ParseNode(Pack(x) + rest) == Done(x, |rest|)
    decreases x
  {
    hide ParseNode, ParseList, ParseDict, PackStr, Sorted, Digits, PackEntries, PackAll;
    var s := Pack(x) + rest;
    match x
    case Str(str) => ParsePackStr(str, rest);
    case Int(n) => ParsePackInt(n, rest);
    case List(l) =>
      assert s[0] == 'l' && s[1..] == PackAll(l) + ("e" + rest);
      Dispatch(s);
      ParsePackAll(l, [], rest);
      assert [] + l == l;
    case Dict(m) =>
      var ks := Sorted(m.Keys);
      assert s[0] == 'd' && s[1..] == PackEntries(x, ks) + ("e" + rest);
      Dispatch(s);
      ParsePackEntries(x, ks, map[], rest);
      assert map[] + Restricted(m, ks) == m;
  }

  // One turn of the loop over a list.
  lemma ParseItem(x: BeNode, done: seq<BeNode>, after: string)
    requires ParseNode(Pack(x) + after) == Done(x, |after|)
    ensures ParseList(Pack(x) + after, done) == ParseList(after, done + [x])
  {
    hide Pack, ParseNode;
    PackBegins(x);
    var s := Pack(x) + after;
    assert s[|s| - |after|..] == after;
  }

  lemma ParseEnd(rest: string)
    ensures forall done :: ParseList("e" + rest, done) == Done(List(done), |rest|)
    ensures forall done :: ParseDict("e" + rest, done) == Done(Dict(done), |rest|)
  {
  }

  lemma {:induction false} ParsePackAll(l: seq<BeNode>, done: seq<BeNode>, rest: string)
    requires forall i :: 0 <= i < |l| ==> InRange(l[i])
    ensures ParseList(PackAll(l) + ("e" + rest), done) == Done(List(done + l), |rest|)
    decreases l
  {
    hide ParseNode, ParseList, Pack;
    var s := PackAll(l) + ("e" + rest);
    if l == [] {
      assert s == "e" + rest && done + l == done;
      ParseEnd(rest);
    } else {
      var after := PackAll(l[1..]) + ("e" + rest);
      assert s == Pack(l[0]) + after;
      ParsePack(l[0], after);
      ParseItem(l[0], done, after);
      ParsePackAll(l[1..], done + [l[0]], rest);
      assert done + [l[0]] + l[1..] == done + l;
    }
  }

  // The entries under some of the keys.
  ghost function Restricted(m: map<string, BeNode>, ks: seq<string>): map<string, BeNode> {
    map k | k in m && k in ks :: m[k]
  }

  lemma {:induction false} ParsePackEntries(d: BeNode, ks: seq<string>, done: map<string, BeNode>, rest: string)
    requires d.Dict? && InRange(d) && forall k :: k in ks ==> k in d.dict
    ensures ParseDict(PackEntries(d, ks) + ("e" + rest), done) == Done(Dict(done + Restricted(d.dict, ks)), |rest|)
    decreases d, |ks|
  {
    hide ParseNode, ParseDict, Pack, PackStr, Restricted;
    var m := d.dict;
    if ks == [] {
      assert PackEntries(d, ks) + ("e" + rest) == "e" + rest;
      RestrictedToNone(m, done);
      ParseEnd(rest);
    } else {
      var k := ks[0];
      var after := PackEntries(d, ks[1..]) + ("e" + rest);
      ParsePack(m[k], after);
      ParseEntry(d, ks, done, after);
      assert PackEntries(d, ks) + ("e" + rest) == PackStr(k) + (Pack(m[k]) + after);
      ParsePackEntries(d, ks[1..], done[k := m[k]], rest);
      RestrictedGrows(m, ks, done);
    }
  }

  lemma RestrictedToNone(m: map<string, BeNode>, done: map<string, BeNode>)
    ensures done + Restricted(m, []) == done
  {
  }

  lemma RestrictedGrows(m: map<string, BeNode>, ks: seq<string>, done: map<string, BeNode>)
    requires ks != [] && forall k :: k in ks ==> k in m
    ensures done[ks[0] := m[ks[0]]] + Restricted(m, ks[1..]) == done + Restricted(m, ks)
  {
    assert forall k :: k in ks <==> k == ks[0] || k in ks[1..];
  }

  lemma ParseEntry(d: BeNode, ks: seq<string>, done: map<string, BeNode>, after: string)
    requires d.Dict? && ks != [] && ks[0] in d.dict
    requires ParseNode(Pack(d.dict[ks[0]]) + after) == Done(d.dict[ks[0]], |after|)
    ensures var k := ks[0];
      ParseDict(PackStr(k) + (Pack(d.dict[k]) + after), done) == ParseDict(after, done[k := d.dict[k]])
  {
    hide Pack, PackStr, ParseNode;
    var k := ks[0];
    var t := Pack(d.dict[k]) + after;
    var s := PackStr(k) + t;
    PackStrBegins(k);
    ParsePackStr(k, t);
    assert s[0] == PackStr(k)[0] && s[|s| - |t|..] == t && t[|t| - |after|..] == after;
  }

  /** No packed value begins another one, and different values pack differently. */
  lemma PackIsPrefixFree(x: BeNode, y: BeNode, rest: string)
    requires InRange(x) && InRange(y) && Pack(x) + rest == Pack(y)
    ensures x == y && rest == ""
  {
    ParsePack(x, rest);
    ParsePack(y, "");
    assert Pack(y) + "" == Pack(y);
  }

  // ---------------------------------------------------------------- the length

  // What the entries come to, in the order given.
  ghost function EntriesLength(d: BeNode, ks: seq<string>): nat
    requires d.Dict? && forall k :: k in ks ==> k in d.dict
  {
    |PackEntries(d, ks)|
  }

  lemma {:induction false} EntryMoved(d: BeNode, a: seq<string>, k: string, b: seq<string>)
    requires d.Dict? && k in d.dict && (forall j :: j in a ==> j in d.dict) && forall j :: j in b ==> j in d.dict
    ensures EntriesLength(d, a + [k] + b) == |PackStr(k)| + |Pack(d.dict[k])| + EntriesLength(d, a + b)
    decreases |a|
  {
    if a == [] {
      assert a + [k] + b == [k] + b && ([k] + b)[1..] == b && a + b == b;
    } else {
      assert (a + [k] + b)[1..] == a[1..] + [k] + b && (a + b)[1..] == a[1..] + b;
      assert (a + [k] + b)[0] == (a + b)[0] == a[0];
      EntryMoved(d, a[1..], k, b);
    }
  }

  // An ascending sequence of keys without the one at i.
  function Without(ks: seq<string>, i: nat): seq<string>
    requires i < |ks|
  {
    ks[..i] + ks[i + 1..]
  }

  lemma WithoutIsAscending(ks: seq<string>, i: nat)
    requires i < |ks| && Ascending(ks)
    ensures Ascending(Without(ks, i))
  {
    hide Less;
    var c := Without(ks, i);
    forall x, y | 0 <= x < y < |c| ensures Less(c[x], c[y]) {
      assert c[x] == ks[if x < i then x else x + 1] && c[y] == ks[if y < i then y else y + 1];
    }
  }

  lemma WithoutHas(ks: seq<string>, i: nat, j: string)
    requires i < |ks| && Ascending(ks)
    ensures j in Without(ks, i) <==> j in ks && j != ks[i]
  {
    hide Less;
    var c := Without(ks, i);
    LessIrreflexive(ks[i]);
    if j in c {
      var x :| 0 <= x < |c| && c[x] == j;
      assert j == ks[if x < i then x else x + 1];
    }
    if j in ks && j != ks[i] {
      var x :| 0 <= x < |ks| && ks[x] == j;
      assert c[if x < i then x else x - 1] == j;
    }
  }

  /** One entry more adds its own length, wherever it is packed. */
  lemma LengthInAnyOrder(d: BeNode, s: set<string>, k: string)
    requires d.Dict? && s <= d.dict.Keys && k in d.dict && k !in s
    ensures EntriesLength(d, Sorted(s + {k})) == EntriesLength(d, Sorted(s)) + |PackStr(k)| + |Pack(d.dict[k])|
  {
    hide Sorted, Pack, PackStr, EntriesLength, Ascending;
    var ks := Sorted(s + {k});
    assert k in ks;
    var i :| 0 <= i < |ks| && ks[i] == k;
    var c := Without(ks, i);
    WithoutIsAscending(ks, i);
    forall j ensures j in c <==> j in s {
      WithoutHas(ks, i, j);
    }
    SortedIsTheOne(s, c);
    assert ks == ks[..i] + [k] + ks[i + 1..];
    assert forall j :: j in ks[..i] ==> j in ks;
    assert forall j :: j in ks[i + 1..] ==> j in ks;
    EntryMoved(d, ks[..i], k, ks[i + 1..]);
  }

  // ---------------------------------------------------------------- the code's own loops

  method ParseNumber(s0: string) returns (r: Parsed)
    requires s0 != ""
    ensures r == ParseInt(s0)
  {
    var s, neg := s0, false;
    if s[0] == '-' { s, neg := s[1..], true; }
    if |s| < 2 { return Bad(0); }
    if !IsDigit(s[0]) || (s[0] == '0' && s[1] != 'e') { return Bad(|s|); }
    ghost var t := s;
    var n := Value(s[0]);
    s := s[1..];
    while |s| > 1 && IsDigit(s[0])
      invariant TakeDigits(n, s) == TakeDigits(Value(t[0]), t[1..])
      decreases |s|
    {
      n, s := Wrap(n * 10 + Value(s[0])), s[1..];
    }
    if |s| < 1 || s[0] != 'e' { return Bad(|s|); }
    return Done(Int(if neg then Wrap(-n) else n), |s| - 1);
  }

  method ParseString(s0: string) returns (r: Parsed)
    requires s0 != "" && IsDigit(s0[0])
    ensures r == ParseStr(s0)
  {
    var n: nat, s := Value(s0[0]), s0[1..];
    while |s| > 0 && IsDigit(s[0])
      invariant TakeLength(n, s) == TakeLength(Value(s0[0]), s0[1..])
      decreases |s|
    {
      if n >= |s| { return Bad(0); }
      n, s := n * 10 + Value(s[0]), s[1..];
    }
    if |s| < 1 || s[0] != ':' { return Bad(|s|); }
    s := s[1..];
    if |s| < n { return Bad(0); }
    return Done(Str(s[..n]), |s| - n);
  }

  /** BeNode::Parse, moving a cursor over the text. */
  method Parse(s: string) returns (r: Parsed)
    ensures r == ParseNode(s)
    decreases |s|, 0
  {
    if |s| < 2 { return Bad(0); }
    if s[0] == 'i' {
      r := ParseNumber(s[1..]);
    } else if s[0] == 'l' {
      r := ParseItems(s[1..]);
    } else if s[0] == 'd' {
      r := ParseEntries(s[1..]);
    } else if IsDigit(s[0]) {
      r := ParseString(s);
    } else {
      r := Bad(|s|);
    }
  }

  method ParseItems(s0: string) returns (r: Parsed)
    ensures r == ParseList(s0, [])
    decreases |s0|, 1
  {
    var s, a: seq<BeNode> := s0, [];
    while |s| > 1 && s[0] != 'e'
      invariant |s| <= |s0| && ParseList(s, a) == ParseList(s0, [])
      decreases |s|
    {
      var p := Parse(s);
      if p.Bad? { return p; }
      a, s := a + [p.node], s[|s| - p.rest..];
    }
    if |s| < 1 || s[0] != 'e' { return Bad(|s|); }
    return Done(List(a), |s| - 1);
  }

  method ParseEntries(s0: string) returns (r: Parsed)
    ensures r == ParseDict(s0, map[])
    decreases |s0|, 1
  {
    var s, m: map<string, BeNode> := s0, map[];
    while |s| > 1 && s[0] != 'e'
      invariant |s| <= |s0| && ParseDict(s, m) == ParseDict(s0, map[])
      decreases |s|
    {
      var k := Parse(s);
      if k.Bad? { return k; }
      if !k.node.Str? { return Bad(|s|); }
      var t := s[|s| - k.rest..];
      var v := Parse(t);
      if v.Bad? { return v; }
      m, s := m[k.node.str := v.node], t[|t| - v.rest..];
    }
    if |s| < 1 || s[0] != 'e' { return Bad(|s|); }
    return Done(Dict(m), |s| - 1);
  }

  /** xstring: a text that grows. */
  class XString {
    var text: string

    constructor ()
      ensures text == ""
    {
      text := "";
    }

    method Append(s: string)
      modifies this
      ensures text == old(text) + s
    {
      text := text + s;
    }
  }

  method DigitsOf(n: nat) returns (s: string)
    ensures s == Digits(n)
  {
    s := "";
    var m := n;
    while m >= 10
      invariant Digits(m) + s == Digits(n)
    {
      s := [Digit(m % 10)] + s;
      m := m / 10;
    }
    s := [Digit(m)] + s;
  }

  // Puts a key where it belongs among ascending ones.
  method InsertKey(ks: seq<string>, k: string) returns (r: seq<string>)
    requires Ascending(ks) && k !in ks
    ensures Ascending(r) && forall j :: j in r <==> j in ks || j == k
  {
    var i := 0;
    while i < |ks| && Less(ks[i], k)
      invariant i <= |ks| && forall j :: 0 <= j < i ==> Less(ks[j], k)
    {
      i := i + 1;
    }
    r := ks[..i] + [k] + ks[i..];
    Inserted(ks, k, i);
  }

  lemma Inserted(ks: seq<string>, k: string, i: nat)
    requires Ascending(ks) && k !in ks && i <= |ks|
    requires (forall j :: 0 <= j < i ==> Less(ks[j], k)) && (i < |ks| ==> !Less(ks[i], k))
    ensures var r := ks[..i] + [k] + ks[i..]; Ascending(r) && forall j :: j in r <==> j in ks || j == k
  {
    hide Less;
    var r := ks[..i] + [k] + ks[i..];
    if i < |ks| { LessTotal(ks[i], k); }
    forall j | i < j < |ks| ensures Less(k, ks[j]) {
      LessTransitive(k, ks[i], ks[j]);
    }
    forall j ensures j in r <==> j in ks || j == k {
      assert ks == ks[..i] + ks[i..];
    }
  }

  // The keys in whatever order the hash table gives them, sorted.
  method SortedKeys(m: map<string, BeNode>) returns (ks: seq<string>)
    ensures ks == Sorted(m.Keys)
  {
    ks := [];
    var left := m.Keys;
    while left != {}
      invariant left <= m.Keys && Ascending(ks) && forall j :: j in ks <==> j in m.Keys - left
    {
      var k :| k in left;
      ks := InsertKey(ks, k);
      left := left - {k};
    }
    SortedIsTheOne(m.Keys, ks);
  }

  method PackString(s: string, buf: XString)
    modifies buf
    ensures buf.text == old(buf.text) + PackStr(s)
  {
    var ds := DigitsOf(|s|);
    buf.Append(ds + ":");
    buf.Append(s);
  }

  /** BeNode::Pack, appending to a buffer. */
  method PackInto(x: BeNode, buf: XString)
    modifies buf
    ensures buf.text == old(buf.text) + Pack(x)
    decreases x, 2
  {
    hide PackStr, PackAll, PackEntries, Sorted;
    ghost var was := buf.text;
    match x
    case Str(s) => PackString(s, buf);
    case Int(n) =>
      var ds := DigitsOf(if n < 0 then -n else n);
      buf.Append("i" + (if n < 0 then "-" + ds else ds) + "e");
    case List(l) =>
      buf.Append("l");
      PackList(x, buf);
      buf.Append("e");
      Regroup(was, "l", PackAll(l), "e");
    case Dict(m) =>
      buf.Append("d");
      PackDict(x, buf);
      buf.Append("e");
      Regroup(was, "d", PackEntries(x, Sorted(m.Keys)), "e");
  }

  lemma Moved(was: string, head: string, tail: string, whole: string)
    requires was + (head + tail) == whole
    ensures was + head + tail == whole
  {
  }

  method PackList(x: BeNode, buf: XString)
    requires x.List?
    modifies buf
    ensures buf.text == old(buf.text) + PackAll(x.list)
    decreases x, 0
  {
    hide Pack;
    var l := x.list;
    ghost var whole := buf.text + PackAll(l);
    var i := 0;
    assert l[0..] == l;
    while i < |l|
      invariant i <= |l| && buf.text + PackAll(l[i..]) == whole
    {
      Moved(buf.text, Pack(l[i]), PackAll(l[i + 1..]), whole) by { assert l[i..][1..] == l[i + 1..]; }
      PackInto(l[i], buf);
      i := i + 1;
    }
    assert buf.text + "" == buf.text;
  }

  method PackEntry(x: BeNode, k: string, buf: XString)
    requires x.Dict? && k in x.dict
    modifies buf
    ensures buf.text == old(buf.text) + (PackStr(k) + Pack(x.dict[k]))
    decreases x, 0
  {
    hide Pack, PackStr;
    PackString(k, buf);
    PackInto(x.dict[k], buf);
  }

  method PackDict(x: BeNode, buf: XString)
    requires x.Dict?
    modifies buf
    ensures buf.text == old(buf.text) + PackEntries(x, Sorted(x.dict.Keys))
    decreases x, 1
  {
    hide Pack, PackStr, Sorted;
    var ks := SortedKeys(x.dict);
    ghost var whole := buf.text + PackEntries(x, ks);
    var i := 0;
    assert ks[0..] == ks;
    while i < |ks|
      invariant i <= |ks| && buf.text + PackEntries(x, ks[i..]) == whole
    {
      assert ks[i] in ks;
      assert ks[i..][1..] == ks[i + 1..];
      Moved(buf.text, PackStr(ks[i]) + Pack(x.dict[ks[i]]), PackEntries(x, ks[i + 1..]), whole);
      PackEntry(x, ks[i], buf);
      i := i + 1;
    }
    assert buf.text + "" == buf.text;
  }

  // The length prefix, the colon and the text, counting the digits by division.
  method StringLength(n: nat) returns (len: nat)
    ensures len == |Digits(n)| + 1 + n
  {
    len := 1 + n;
    var i := n;
    while i >= 10
      invariant len + |Digits(i)| == 1 + n + |Digits(n)|
    {
      len := len + 1;
      i := i / 10;
    }
    len := len + 1;
  }

  /** ComputeLength is the length of what Pack writes, though it takes the entries of a
      dictionary in whatever order they come. */
  method ComputeLength(x: BeNode) returns (len: nat)
    ensures len == |Pack(x)|
    decreases x
  {
    match x
    case Str(s) => len := StringLength(|s|);
    case Int(n) =>
      var ds := DigitsOf(if n < 0 then -n else n);
      len := 1 + |if n < 0 then "-" + ds else ds| + 1;
    case List(l) =>
      len := 1;
      var i := 0;
      assert l[0..] == l;
      while i < |l|
        invariant i <= |l| && len + |PackAll(l[i..])| == 1 + |PackAll(l)|
      {
        var n := ComputeLength(l[i]);
        len := len + n;
        assert l[i..][1..] == l[i + 1..];
        i := i + 1;
      }
      len := len + 1;
    case Dict(m) =>
      len := 1;
      ghost var taken: set<string> := {};
      var left := m.Keys;
      while left != {}
        invariant left !! taken && left + taken == m.Keys
        invariant len == 1 + EntriesLength(x, Sorted(taken))
      {
        var k :| k in left;
        var i := StringLength(|k|);
        var n := ComputeLength(m[k]);
        len := len + i + n;
        LengthInAnyOrder(x, taken, k);
        left, taken := left - {k}, taken + {k};
      }
      len := len + 1;
  }
}
