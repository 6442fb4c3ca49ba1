/**
 * Does a `Connection` header ask for the connection to be closed? The scanner is an index
 * loop; its specification reads the field value as a comma-separated list.
 */
module ConnectionHeader {
  import opened Wrappers
  import opened HttpTokens

  /** One octet of a field value, written as the character with its code. */
  type Octet = c: char | c as int < 256 witness ' '

  predicate IsOws(c: char) {
    c == ' ' || c == '\t'
  }

  predicate IsClose(s: string) {
    |s| == 5 && forall i :: 0 <= i < 5 ==> LowerChar(s[i]) == "close"[i]
  }

  // ------------------------------------------------------------------- the specification

  function TrimLeft(s: string): string {
    if s != [] && IsOws(s[0]) then TrimLeft(s[1..]) else s
  }

  function TrimRight(s: string): string {
    if s != [] && IsOws(s[|s| - 1]) then TrimRight(s[..|s| - 1]) else s
  }

  function Trim(s: string): string {
    TrimRight(TrimLeft(s))
  }

  /** The elements between commas, `piece` being read already, without surrounding blanks. */
  function Elements(s: string, piece: string): (es: seq<string>)
    ensures es != []
    decreases s
  {
    if s == [] then [Trim(piece)]
    else if s[0] == ',' then [Trim(piece)] + Elements(s[1..], [])
    else Elements(s[1..], piece + [s[0]])
  }

  /** The first element that settles the question; empty elements are skipped. */
  function Verdict(es: seq<string>): Result<bool, ()> {
    if es == [] then Success(false)
    else if es[0] == [] then Verdict(es[1..])
    else if !IsToken(es[0]) then Failure(())
    else if IsClose(es[0]) then Success(true)
    else Verdict(es[1..])
  }

  predicate AsksToClose(e: string) {
    e != [] && (!IsToken(e) || IsClose(e))
  }

  lemma {:induction false} VerdictIsExact(es: seq<string>)
    ensures Verdict(es) == Success(false) <==> forall i :: 0 <= i < |es| ==> !AsksToClose(es[i])
    ensures Verdict(es).Success? ==> (Verdict(es).value <==> exists i :: 0 <= i < |es| && AsksToClose(es[i]))
  {
    if es == [] {
    } else {
      VerdictIsExact(es[1..]);
      if !AsksToClose(es[0]) && Verdict(es) == Success(false) {
        forall i | 0 <= i < |es| ensures !AsksToClose(es[i]) {
          assert i > 0 ==> es[i] == es[1..][i - 1];
        }
      }
      if Verdict(es[1..]) == Success(true) && !AsksToClose(es[0]) {
        var i :| 0 <= i < |es[1..]| && AsksToClose(es[1..][i]);
        assert es[i + 1] == es[1..][i];
      }
    }
  }

  lemma VerdictCons(e: string, es: seq<string>)
    requires e != [] ==> IsToken(e)
    ensures Verdict([e] + es) == if e != [] && IsClose(e) then Success(true) else Verdict(es)
  {
    hide IsToken, IsClose;
    assert ([e] + es)[1..] == es;
  }

  lemma NoElements()
    ensures Verdict([]) == Success(false)
  {
  }

  // ----------------------------------------------------------------- where elements end

  lemma {:induction false} ElementsSkip(s: string, n: nat, piece: string)
    requires n <= |s| && forall i :: 0 <= i < n ==> s[i] != ','
    ensures Elements(s, piece) == Elements(s[n..], piece + s[..n])
    decreases n
  {
    if n == 0 {
      assert s[0..] == s && piece + s[..0] == piece;
    } else {
      ElementsSkip(s[1..], n - 1, piece + [s[0]]);
      assert s[1..][n - 1..] == s[n..];
      assert piece + [s[0]] + s[1..][..n - 1] == piece + s[..n];
    }
  }

  lemma {:induction false} TrimLeftIs(s: string) returns (d: nat)
    ensures d <= |s| && TrimLeft(s) == s[d..]
    ensures (forall j :: 0 <= j < d ==> IsOws(s[j])) && (d < |s| ==> !IsOws(s[d]))
  {
    if s != [] && IsOws(s[0]) {
      var d' := TrimLeftIs(s[1..]);
      d := d' + 1;
      assert s[1..][d'..] == s[d..];
      assert forall j :: 1 <= j < d ==> s[j] == s[1..][j - 1];
    } else {
      d := 0;
    }
  }

  lemma {:induction false} TrimRightIs(s: string) returns (e: nat)
    ensures e <= |s| && TrimRight(s) == s[..e]
    ensures (forall j :: e <= j < |s| ==> IsOws(s[j])) && (e > 0 ==> !IsOws(s[e - 1]))
  {
    if s != [] && IsOws(s[|s| - 1]) {
      e := TrimRightIs(s[..|s| - 1]);
      assert s[..|s| - 1][..e] == s[..e];
    } else {
      e := |s|;
      assert s[..e] == s;
    }
  }

  /** Blanks up to `a`, a token up to `b`, blanks up to `c`. */
  predicate Stretch(s: string, a: nat, b: nat, c: nat) {
    && a <= b <= c <= |s|
    && (forall i :: 0 <= i < a ==> IsOws(s[i]))
    && (forall i :: a <= i < b ==> IsTokenChar(s[i]))
    && (forall i :: b <= i < c ==> IsOws(s[i]))
  }

  lemma CharFacts(c: char)
    ensures IsTokenChar(c) ==> !IsOws(c) && c != ','
    ensures IsOws(c) ==> c != ','
  {
  }

  lemma StretchHasNoComma(s: string, a: nat, b: nat, c: nat)
    requires Stretch(s, a, b, c)
    ensures forall i :: 0 <= i < c ==> s[i] != ','
    ensures forall i :: a <= i < b ==> !IsOws(s[i])
  {
    hide IsTokenChar, IsOws;
    forall i | 0 <= i < c ensures s[i] != ',' && (IsTokenChar(s[i]) ==> !IsOws(s[i])) {
      CharFacts(s[i]);
    }
  }

  lemma TrimStretch(s: string, a: nat, b: nat)
    requires Stretch(s, a, b, |s|)
    ensures Trim(s) == s[a..b]
  {
    hide IsTokenChar, IsOws, TrimLeft, TrimRight;
    StretchHasNoComma(s, a, b, |s|);
    var d := TrimLeftIs(s);
    var e := TrimRightIs(s[d..]);
    if a < b {
      assert !IsOws(s[a]) && !IsOws(s[b - 1]);
      assert d == a;
      var t := s[d..];
      assert forall j :: 0 <= j < |t| ==> t[j] == s[d + j];
      assert t[b - 1 - d] == s[b - 1];
      assert d + e == b;
    }
  }

  lemma UpToComma(s: string, c: nat)
    requires c < |s| && s[c] == ',' && forall i :: 0 <= i < c ==> s[i] != ','
    ensures Elements(s, []) == [Trim(s[..c])] + Elements(s[c + 1..], [])
  {
    hide Trim;
    ElementsSkip(s, c, []);
    assert [] + s[..c] == s[..c];
    assert s[c..][0] == ',' && s[c..][1..] == s[c + 1..];
  }

  lemma UpToEnd(s: string)
    requires forall i :: 0 <= i < |s| ==> s[i] != ','
    ensures Elements(s, []) == [Trim(s)]
  {
    hide Trim;
    ElementsSkip(s, |s|, []);
    assert [] + s[..|s|] == s && s[|s|..] == [];
  }

  lemma TokenSlice(s: string, a: nat, b: nat)
    requires a < b <= |s| && forall i :: a <= i < b ==> IsTokenChar(s[i])
    ensures IsToken(s[a..b])
  {
    hide IsTokenChar;
  }

  /** A stretch that ends in a comma is one element. */
  lemma ElementAt(s: string, a: nat, b: nat, c: nat)
    requires Stretch(s, a, b, c) && c < |s| && s[c] == ','
    ensures Elements(s, []) == [s[a..b]] + Elements(s[c + 1..], [])
    ensures a < b ==> IsToken(s[a..b])
  {
    hide IsTokenChar, IsOws, Trim, Elements, IsToken;
    StretchHasNoComma(s, a, b, c);
    UpToComma(s, c);
    TrimStretch(s[..c], a, b);
    assert s[..c][a..b] == s[a..b];
    if a < b {
      TokenSlice(s, a, b);
    }
  }

  lemma LastElement(s: string, a: nat, b: nat)
    requires Stretch(s, a, b, |s|)
    ensures Elements(s, []) == [s[a..b]]
    ensures a < b ==> IsToken(s[a..b])
  {
    hide IsTokenChar, IsOws, Trim, Elements, IsToken;
    StretchHasNoComma(s, a, b, |s|);
    UpToEnd(s);
    TrimStretch(s, a, b);
    if a < b {
      TokenSlice(s, a, b);
    }
  }

  lemma FirstComma(s: string, c: nat) returns (n: nat)
    requires c <= |s| && forall i :: 0 <= i < c ==> s[i] != ','
    ensures c <= n <= |s| && (forall i :: 0 <= i < n ==> s[i] != ',') && (n < |s| ==> s[n] == ',')
    decreases |s| - c
  {
    if c < |s| && s[c] != ',' {
      n := FirstComma(s, c + 1);
    } else {
      n := c;
    }
  }

  /** Trimming keeps what lies between two characters that are not blank. */
  lemma TrimKeeps(s: string, p: nat, x: nat, q: nat)
    requires p <= x <= q < |s| && !IsOws(s[p]) && !IsOws(s[q])
    ensures s[x] in Trim(s)
  {
    hide IsOws, TrimLeft, TrimRight;
    var d := TrimLeftIs(s);
    var t := s[d..];
    var e := TrimRightIs(t);
    assert d <= p && t[q - d] == s[q] && t[x - d] == s[x];
    assert e > q - d;
    assert t[..e][x - d] == s[x];
  }

  /** Something other than a comma where the list needs one: the element is no token. */
  lemma BadElement(s: string, a: nat, b: nat, c: nat)
    requires Stretch(s, a, b, c) && c < |s| && s[c] != ',' && !IsOws(s[c])
    requires (a < b || b == c) && (b == c ==> !IsTokenChar(s[c]))
    ensures Verdict(Elements(s, [])) == Failure(())
  {
    hide IsTokenChar, IsOws, Trim, IsClose;
    StretchHasNoComma(s, a, b, c);
    var n := FirstComma(s, c + 1);
    ElementsSkip(s, n, []);
    var u := s[..n];
    assert [] + u == u;
    assert Elements(s, [])[0] == Trim(u);
    CharFacts(s[b]);
    TrimKeeps(u, if a < b then a else c, b, c);
    assert !IsTokenChar(u[b]);
  }

  // The same facts at a position of the whole value.

  predicate StretchFrom(s: string, i: nat, a: nat, b: nat, c: nat) {
    && i <= a <= b <= c <= |s|
    && (forall j :: i <= j < a ==> IsOws(s[j]))
    && (forall j :: a <= j < b ==> IsTokenChar(s[j]))
    && (forall j :: b <= j < c ==> IsOws(s[j]))
  }

  function From(s: string, i: nat): Result<bool, ()>
    requires i <= |s|
  {
    Verdict(Elements(s[i..], []))
  }

  lemma StretchShift(s: string, i: nat, a: nat, b: nat, c: nat)
    requires StretchFrom(s, i, a, b, c)
    ensures Stretch(s[i..], a - i, b - i, c - i) && s[i..][a - i..b - i] == s[a..b]
  {
    hide IsTokenChar, IsOws;
  }

  lemma ElementFrom(s: string, i: nat, a: nat, b: nat, c: nat)
    requires StretchFrom(s, i, a, b, c) && c < |s| && s[c] == ','
    ensures From(s, i) == if a < b && IsClose(s[a..b]) then Success(true) else From(s, c + 1)
  {
    hide Stretch, Elements, Verdict, IsClose, IsOws, IsTokenChar;
    StretchShift(s, i, a, b, c);
    ElementAt(s[i..], a - i, b - i, c - i);
    assert s[i..][c - i + 1..] == s[c + 1..];
    VerdictCons(s[a..b], Elements(s[c + 1..], []));
  }

  lemma LastFrom(s: string, i: nat, a: nat, b: nat)
    requires StretchFrom(s, i, a, b, |s|)
    ensures From(s, i) == Success(a < b && IsClose(s[a..b]))
  {
    hide Stretch, Elements, Verdict, IsClose, IsOws, IsTokenChar;
    StretchShift(s, i, a, b, |s|);
    LastElement(s[i..], a - i, b - i);
    VerdictCons(s[a..b], []);
    assert [s[a..b]] + [] == [s[a..b]];
    NoElements();
  }

  lemma BadFrom(s: string, i: nat, a: nat, b: nat, c: nat)
    requires StretchFrom(s, i, a, b, c) && c < |s| && s[c] != ',' && !IsOws(s[c])
    requires (a < b || b == c) && (b == c ==> !IsTokenChar(s[c]))
    ensures From(s, i) == Failure(())
  {
    hide Stretch, Elements, Verdict, IsOws, IsTokenChar;
    StretchShift(s, i, a, b, c);
    BadElement(s[i..], a - i, b - i, c - i);
  }

  // ------------------------------------------------------------------------- the scanner

  method SkipOws(s: string, start: nat) returns (i: nat)
    requires start <= |s|
    ensures start <= i <= |s| && (i < |s| ==> !IsOws(s[i]))
    ensures forall j :: start <= j < i ==> IsOws(s[j])
  {
    i := start;
    while i < |s| && IsOws(s[i])
      invariant start <= i <= |s| && forall j :: start <= j < i ==> IsOws(s[j])
    {
      i := i + 1;
    }
  }

  method SkipToken(s: string, start: nat) returns (i: nat)
    requires start <= |s|
    ensures start <= i <= |s| && (i < |s| ==> !IsTokenChar(s[i]))
    ensures forall j :: start <= j < i ==> IsTokenChar(s[j])
  {
    i := start;
    while i < |s| && IsTokenChar(s[i])
      invariant start <= i <= |s| && forall j :: start <= j < i ==> IsTokenChar(s[j])
    {
      i := i + 1;
    }
  }

  method Scan(value: string) returns (r: Result<bool, ()>)
    ensures r == From(value, 0)
  {
    hide IsTokenChar, IsOws, IsClose, From;
    var index := 0;
    while index < |value|
      invariant index <= |value| && From(value, 0) == From(value, index)
      decreases |value| - index
    {
      var start := SkipOws(value, index);
      if start == |value| {
        LastFrom(value, index, start, start);
        return Success(false);
      }
      if value[start] == ',' {
        ElementFrom(value, index, start, start, start);
        index := start + 1;
        continue;
      }
      var end := SkipToken(value, start);
      if start == end {
        BadFrom(value, index, start, start, start);
        return Failure(());
      }
      var token := value[start..end];
      var after := SkipOws(value, end);
      if after == |value| {
        LastFrom(value, index, start, end);
        return Success(IsClose(token));
      } else if value[after] == ',' {
        ElementFrom(value, index, start, end, after);
        if IsClose(token) {
          return Success(true);
        }
        index := after + 1;
      } else {
        BadFrom(value, index, start, end, after);
        return Failure(());
      }
    }
    LastFrom(value, index, index, index);
    return Success(false);
  }

  method ValueRequestsClose(value: seq<Octet>) returns (r: Result<bool, ()>)
    ensures !Readable(value) ==> r.Failure?
    ensures Readable(value) ==> r == Verdict(Elements(value, []))
  {
    if Readable(value) {
      r := Scan(value);
      assert value[0..] == value;
    } else {
      r := Failure(());
    }
  }

  /** The scanner over all values of the header. */
  method HeaderRequestsClose(values: seq<seq<Octet>>) returns (close: bool)
    ensures close <==> exists v :: v in values && (!Readable(v) || exists e :: e in Elements(v, []) && AsksToClose(e))
  {
    hide Elements, AsksToClose, Readable, Verdict;
    for i := 0 to |values|
      invariant forall j :: 0 <= j < i ==> Readable(values[j]) && forall e :: e in Elements(values[j], []) ==> !AsksToClose(e)
    {
      var r := ValueRequestsClose(values[i]);
      VerdictIsExact(Elements(values[i], []));
      if r != Success(false) {
        return true;
      }
    }
    return false;
  }
}
