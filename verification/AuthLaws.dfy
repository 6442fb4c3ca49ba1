/**
 * What the challenge parser accepts, told by the grammar: exactly the renderings of parameters,
 * what opens a challenge, and how pieces that are neither are passed over.
 */
module AuthLaws {
  import opened Wrappers
  import opened HttpTokens
  import opened AuthChallenge
  import opened AuthRoundTrip

  // --------------------------------------------------------------------------- trimming

  lemma {:induction false} TrimStartSplits(s: string) returns (d: nat)
    ensures d <= |s| && TrimStart(s) == s[d..] && IsBlank(s[..d]) && (d < |s| ==> !IsWhitespace(s[d]))
  {
    hide IsWhitespace;
    if s == [] || !IsWhitespace(s[0]) {
      d := 0;
    } else {
      var e := TrimStartSplits(s[1..]);
      d := e + 1;
      assert s[1..][e..] == s[d..];
      assert s[..d] == [s[0]] + s[1..][..e];
    }
  }

  lemma {:induction false} TrimEndSplits(s: string) returns (e: nat)
    ensures e <= |s| && TrimEnd(s) == s[..e] && IsBlank(s[e..]) && (e > 0 ==> !IsWhitespace(s[e - 1]))
  {
    hide IsWhitespace;
    if s == [] || !IsWhitespace(s[|s| - 1]) {
      e := |s|;
    } else {
      var n := |s| - 1;
      e := TrimEndSplits(s[..n]);
      assert s[..n][..e] == s[..e];
      assert s[e..] == s[..n][e..] + [s[n]];
    }
  }

  /** Trimming takes blanks off both ends and nothing else. */
  lemma TrimPads(s: string)
    ensures Padded(s, Trim(s))
    ensures Trim(s) != [] ==> !IsWhitespace(Trim(s)[0]) && !IsWhitespace(Trim(s)[|Trim(s)| - 1])
    ensures Trim(s) == [] ==> IsBlank(s)
  {
    hide IsWhitespace;
    var d := TrimStartSplits(s);
    var t := s[d..];
    var e := TrimEndSplits(t);
    assert s[d..d + e] == t[..e] && s[d + e..] == t[e..];
    if e == 0 {
      assert s == s[..d] + t[0..];
    }
  }

  // ------------------------------------------------------------------------- parameters

  /** What was read stays at the front of the result. */
  lemma {:induction false} GrowsBy(s: string, escaped: bool, out: string, value: string, rest: string)
    requires Unquote(s, escaped, out) == Some((value, rest))
    ensures |out| <= |value| && value[..|out|] == out
    decreases |s|
  {
    if !escaped && s[0] == '"' {
    } else if !escaped && s[0] == '\\' {
      GrowsBy(s[1..], true, out, value, rest);
    } else {
      GrowsBy(s[1..], false, out + [s[0]], value, rest);
      assert value[..|out|] == value[..|out| + 1][..|out|];
    }
  }

  lemma QuotedCons(c: char, escaped: bool, inner: string, value: string)
    requires QuotedAs(inner, value) && (!escaped ==> c != '"' && c != '\\')
    ensures QuotedAs((if escaped then ['\\', c] else [c]) + inner, [c] + value)
  {
    assert (['\\', c] + inner)[2..] == inner && ([c] + inner)[1..] == inner && ([c] + value)[1..] == value;
  }

  lemma {:induction false} UnquotedWasQuoted(s: string, out: string, value: string, rest: string) returns (inner: string)
    requires |out| <= |value| && value[..|out|] == out && Unquote(s, false, out) == Some((value, rest))
    ensures QuotedAs(inner, value[|out|..]) && s == inner + ("\"" + rest)
    decreases |s|
  {
    if s[0] == '"' {
      inner := [];
      assert s == [s[0]] + s[1..];
    } else {
      var escaped := s[0] == '\\';
      var n := if escaped then 2 else 1;
      assert escaped ==> Unquote(s[1..], true, out) == Unquote(s[2..], false, out + [s[1]]) by {
        assert escaped ==> s[1..] != [] && s[1..][1..] == s[2..];
      }
      var c := s[n - 1];
      GrowsBy(s[n..], false, out + [c], value, rest);
      var more := UnquotedWasQuoted(s[n..], out + [c], value, rest);
      hide Unquote, QuotedAs;
      QuotedCons(c, escaped, more, value[|out| + 1..]);
      assert value[|out|] == value[..|out| + 1][|out|];
      assert value[|out|..] == [c] + value[|out| + 1..];
      inner := (if escaped then ['\\', c] else [c]) + more;
      assert s == s[..n] + s[n..];
    }
  }

  /** A value the parser reads is a token or a quoted string. */
  lemma ParsedValueIsText(t: string, value: string, rest: string) returns (quoted: bool, inner: string)
    requires ParseParamValue(t) == Some((value, rest))
    ensures if quoted then QuotedAs(inner, value) && t == "\"" + inner + "\"" + rest else IsToken(value) && t == value + rest
  {
    hide IsTokenChar, QuotedAs, Unquote;
    quoted, inner := t != [] && t[0] == '"', [];
    if quoted {
      inner := UnquotedWasQuoted(t[1..], [], value, rest);
      assert value[0..] == value;
      assert t == ['"'] + t[1..];
    } else {
      ParsedTokenIsToken(t);
      var end := TokenEnd(t);
      assert t == t[..end] + t[end..];
    }
  }

  lemma BlankTail(s: string, head: string, tail: string)
    requires s == head + tail && IsBlank(tail) && s != [] && !IsWhitespace(s[|s| - 1])
    ensures tail == [] && s == head
  {
    hide IsWhitespace;
    assert head + [] == head;
  }

  /** The blanks around an equals sign, and the text after them. */
  lemma EqualsSplits(rest: string) returns (before: string, between: string)
    requires TrimStart(rest) != [] && TrimStart(rest)[0] == '='
    ensures IsBlank(before) && IsBlank(between) && rest == before + "=" + between + TrimStart(TrimStart(rest)[1..])
  {
    hide IsWhitespace, TrimStart;
    var d := TrimStartSplits(rest);
    var after := rest[d + 1..];
    assert rest[d..][1..] == after;
    var e := TrimStartSplits(after);
    before, between := rest[..d], after[..e];
    assert after == between + after[e..];
    assert rest == before + ["="[0]] + after;
  }

  lemma ParamTextConcat(p: Param, f: ParamForm, rest: string, tail: string)
    requires rest == f.before + "=" + f.after + (ValueText(p, f) + tail)
    ensures p.name + rest == ParamText(p, f) + tail
  {
    hide ValueText;
  }

  lemma ParseParamParts(t: string) returns (name: string, rest: string, value: string, remaining: string)
    requires ParseParam(t).Some? && Trim(t) == t
    ensures IsToken(name) && t == name + rest && TrimStart(rest) != [] && TrimStart(rest)[0] == '='
    ensures ParseParamValue(TrimStart(TrimStart(rest)[1..])) == Some((value, remaining))
    ensures ParseParam(t).value == Param(name, value) && IsBlank(remaining)
  {
    hide IsToken, TrimStart, Trim, ParseParamValue, TokenEnd;
    ParsedTokenIsToken(t);
    name, rest := ParseToken(t).value.0, ParseToken(t).value.1;
    var end := TokenEnd(t);
    assert t == t[..end] + t[end..];
    var v := ParseParamValue(TrimStart(TrimStart(rest)[1..])).value;
    value, remaining := v.0, v.1;
    TrimPads(remaining);
  }

  lemma TokenIsNotEmpty(s: string)
    requires IsToken(s)
    ensures s != []
  {
  }

  /** A trimmed text that parses as a parameter is one of its renderings. */
  lemma ParsedParamWasRendered(t: string) returns (f: ParamForm)
    requires ParseParam(t).Some? && Trim(t) == t
    ensures ParamFits(ParseParam(t).value, f) && t == ParamText(ParseParam(t).value, f)
  {
    hide IsWhitespace, IsToken, QuotedAs, TrimStart, Trim, ParseParamValue, ParseParam, ParamText, IsBlank;
    var name, rest, value, remaining := ParseParamParts(t);
    var before, between := EqualsSplits(rest);
    var text := TrimStart(TrimStart(rest)[1..]);
    var quoted, inner := ParsedValueIsText(text, value, remaining);
    f := if quoted then AsQuoted(before, between, inner) else AsToken(before, between);
    var p := Param(name, value);
    assert text == ValueText(p, f) + remaining;
    ParamTextConcat(p, f, rest, remaining);
    TrimPads(t);
    TokenIsNotEmpty(name);
    BlankTail(t, ParamText(p, f), remaining);
  }

  lemma SameTrimSameParam(s: string, t: string)
    requires Trim(s) == Trim(t)
    ensures ParseParam(s) == ParseParam(t)
  {
    hide Trim, TrimStart, ParseToken, ParseParamValue;
  }

  lemma TrimTwice(s: string)
    ensures Trim(Trim(s)) == Trim(s) && ParseParam(Trim(s)) == ParseParam(s)
  {
    hide IsWhitespace;
    TrimPads(s);
    var t := Trim(s);
    if t == [] {
      TrimBlank(t);
    } else {
      TrimStartBlank([], t);
      TrimEndBlank(t, []);
      assert [] + t == t && t + [] == t;
    }
    hide *;
    SameTrimSameParam(s, t);
  }

  /** A text parses as a parameter exactly if it is one of its renderings, with blanks around. */
  lemma ParamIsExact(s: string, p: Param)
    ensures ParseParam(s) == Some(p) <==> exists f :: ParamFits(p, f) && Padded(s, ParamText(p, f))
  {
    hide ParamFits, ParamText, Padded, Trim;
    TrimTwice(s);
    if ParseParam(s) == Some(p) {
      var f := ParsedParamWasRendered(Trim(s));
      TrimPads(s);
      assert ParamFits(p, f) && Padded(s, ParamText(p, f));
    }
    if exists f :: ParamFits(p, f) && Padded(s, ParamText(p, f)) {
      var f :| ParamFits(p, f) && Padded(s, ParamText(p, f));
      ParamIsElement(p, f);
      TrimPadded(s, ParamText(p, f));
      ParamParsesBack(p, f);
    }
  }

  // -------------------------------------------------------------------------- challenges

  lemma {:induction false} TailHasNoComma(s: string, t: string)
    requires NoComma(Plain, s + t) && forall i :: 0 <= i < |s| ==> s[i] != '"'
    ensures NoComma(Plain, t)
  {
    if s == [] {
      assert s + t == t;
    } else {
      assert (s + t)[1..] == s[1..] + t;
      TailHasNoComma(s[1..], t);
    }
  }

  lemma {:induction false} FrontHasNoComma(mode: Mode, s: string, t: string)
    requires NoComma(mode, s + t)
    ensures NoComma(mode, s)
    decreases s
  {
    if s == [] {
    } else {
      assert (s + t)[1..] == s[1..] + t;
      FrontHasNoComma(Next(mode, s[0]), s[1..], t);
    }
  }

  lemma BlankHasNoQuote(s: string)
    requires IsBlank(s)
    ensures forall i :: 0 <= i < |s| ==> s[i] != '"'
  {
    hide IsWhitespace, IsTokenChar;
    forall i | 0 <= i < |s| ensures s[i] != '"' {
      CharFacts(s[i]);
    }
  }

  lemma MiddleHasNoComma(s: string, a: nat, b: nat)
    requires a <= b <= |s| && NoComma(Plain, s) && IsBlank(s[..a])
    ensures NoComma(Plain, s[a..b])
  {
    hide NoComma, IsBlank;
    var front := s[..b];
    assert s == front + s[b..];
    FrontHasNoComma(Plain, front, s[b..]);
    assert front == s[..a] + s[a..b];
    BlankHasNoQuote(s[..a]);
    TailHasNoComma(s[..a], s[a..b]);
  }

  lemma TrimHasNoComma(s: string)
    requires NoComma(Plain, s)
    ensures NoComma(Plain, Trim(s))
  {
    hide NoComma, Trim, IsWhitespace, IsBlank;
    TrimPads(s);
    var a, b :| 0 <= a <= b <= |s| && IsBlank(s[..a]) && IsBlank(s[b..]) && Trim(s) == s[a..b];
    MiddleHasNoComma(s, a, b);
  }

  lemma SolePiece(t: string)
    requires NoComma(Plain, t)
    ensures ParamsOf(Pieces(t, Plain, [])) == if ParseParam(t).Some? then [ParseParam(t).value] else []
  {
    hide NoComma, Run, ParseParam;
    PiecesSkip(t, [], Plain, []);
    assert t + [] == t && [] + t == t;
    assert Pieces(t, Plain, []) == [t];
    assert [t][1..] == [];
    assert ParamsOf([t][1..]) == [];
  }

  lemma PaddedContains(s: string, t: string, c: char)
    requires Padded(s, t) && c in t
    ensures c in s
  {
    var a, b :| 0 <= a <= b <= |s| && IsBlank(s[..a]) && IsBlank(s[b..]) && t == s[a..b];
    var i :| 0 <= i < |t| && t[i] == c;
    assert s[a + i] == c;
  }

  lemma ParamHasEquals(t: string)
    requires ParseParam(t).Some?
    ensures '=' in t
  {
    hide ParamFits, Padded;
    var p := ParseParam(t).value;
    ParamIsExact(t, p);
    var f :| ParamFits(p, f) && Padded(t, ParamText(p, f));
    ParamIsNoToken68(p, f);
    PaddedContains(t, ParamText(p, f), '=');
  }

  /** The challenge that a scheme and the trimmed text after it open: with a token68, with one parameter, or bare. */
  function OpenedBy(scheme: string, rest: string): Challenge {
    if IsToken68(rest) then Challenge(scheme, Some(rest), [])
    else if ParseParam(rest).Some? then Challenge(scheme, None, [ParseParam(rest).value])
    else Challenge(scheme, None, [])
  }

  lemma NothingIsNothing()
    ensures !IsToken68("") && ParseParam("") == None
  {
    TrimBlank("");
  }

  lemma RestIsOpened(scheme: string, rest: string)
    requires NoComma(Plain, rest)
    ensures ParseRest(scheme, rest) == OpenedBy(scheme, rest)
  {
    hide NoComma, IsToken68, ParseParam, Pieces, ParamsOf;
    SolePiece(rest);
    if rest == [] {
      NothingIsNothing();
    } else if ParseParam(rest).Some? {
      ParamHasEquals(rest);
    }
  }

  lemma SchemeThenRest(scheme: string, rest: string)
    requires NoComma(Plain, scheme + rest) && IsToken(scheme)
    ensures ParseRest(scheme, Trim(rest)) == OpenedBy(scheme, Trim(rest))
  {
    hide NoComma, Trim, IsTokenChar;
    forall i | 0 <= i < |scheme| ensures scheme[i] != '"' {
      CharFacts(scheme[i]);
    }
    TailHasNoComma(scheme, rest);
    TrimHasNoComma(rest);
    RestIsOpened(scheme, Trim(rest));
  }

  /** A piece opens a challenge exactly if it is a token alone or one followed by whitespace. */
  lemma StartIsExact(s: string, c: Challenge)
    requires NoComma(Plain, s)
    ensures ParseStart(s) == Some(c) <==>
            exists scheme, rest ::
              && s == scheme + rest && IsToken(scheme) && (rest != [] ==> IsWhitespace(rest[0]))
              && c == OpenedBy(scheme, Trim(rest))
  {
    hide IsToken, IsTokenChar, IsWhitespace, Trim, OpenedBy, ParseRest, NoComma, TokenEnd;
    if ParseStart(s) == Some(c) {
      ParsedTokenIsToken(s);
      var (scheme, rest) := ParseToken(s).value;
      assert s == scheme + rest;
      SchemeThenRest(scheme, rest);
      assert c == OpenedBy(scheme, Trim(rest));
    }
    forall scheme, rest | s == scheme + rest && IsToken(scheme) && (rest != [] ==> IsWhitespace(rest[0])) && c == OpenedBy(scheme, Trim(rest))
      ensures ParseStart(s) == Some(c)
    {
      if rest != [] {
        CharFacts(rest[0]);
      }
      ParseTokenIs(scheme, rest);
      SchemeThenRest(scheme, rest);
    }
  }

  // ------------------------------------------------------------------ lists of any pieces

  /** A piece that is not blank and no parameter closes what is open. */
  predicate Breaks(piece: string) {
    Trim(piece) != [] && ParseParam(piece) == None
  }

  lemma {:induction false} TakeAllPrefix(done: seq<Challenge>, p: Progress, pieces: seq<string>)
    ensures TakeAll(Progress(done + p.done, p.current), pieces) ==
            Progress(done + TakeAll(p, pieces).done, TakeAll(p, pieces).current)
    decreases pieces
  {
    hide ParseParam, ParseStart, Trim;
    if pieces == [] {
    } else {
      var q := Take(p, pieces[0]);
      assert Take(Progress(done + p.done, p.current), pieces[0]) == Progress(done + q.done, q.current) by {
        if p.current.Some? {
          assert (done + p.done) + [p.current.value] == done + (p.done + [p.current.value]);
        }
      }
      TakeAllPrefix(done, q, pieces[1..]);
    }
  }

  lemma TakeBreak(p: Progress, piece: string)
    requires Breaks(piece)
    ensures Take(p, piece) == Progress(Finished(p), ParseStart(Trim(piece)))
  {
    hide Trim, ParseStart, ParseParam;
    TrimTwice(piece);
  }

  /** Reading a list and reading on from a piece that breaks is reading the two parts apart. */
  lemma PartsReadApart(ps: seq<string>, qs: seq<string>)
    requires ps != [] && qs != [] && Breaks(qs[0])
    requires forall i :: 0 <= i < |ps| ==> Balanced(ps[i])
    requires forall i :: 0 <= i < |qs| ==> Balanced(qs[i])
    ensures Parse(JoinCommas(ps + qs)) == Parse(JoinCommas(ps)) + Parse(JoinCommas(qs))
  {
    hide Balanced, Breaks, Take, Pieces, JoinCommas, ParseStart, Trim;
    var fresh0 := Progress([], None);
    SplitJoin(ps);
    SplitJoin(qs);
    SplitJoin(ps + qs);
    TakeAllConcat(fresh0, ps, qs);
    var p := TakeAll(fresh0, ps);
    TakeBreak(p, qs[0]);
    TakeBreak(fresh0, qs[0]);
    var q := Progress([], ParseStart(Trim(qs[0])));
    assert Finished(p) + q.done == Finished(p);
    TakeAllPrefix(Finished(p), q, qs[1..]);
    var t := TakeAll(q, qs[1..]);
    assert t.current.Some? ==> Finished(p) + t.done + [t.current.value] == Finished(p) + (t.done + [t.current.value]);
  }

  /** A piece that breaks and opens nothing is passed over; what follows is read by itself. */
  lemma UnreadablePieceIsSkipped(bad: string, qs: seq<string>)
    requires qs != [] && Breaks(bad) && ParseStart(Trim(bad)) == None && Balanced(bad)
    requires forall i :: 0 <= i < |qs| ==> Balanced(qs[i])
    ensures Parse(JoinCommas([bad] + qs)) == Parse(JoinCommas(qs))
  {
    hide Balanced, Breaks, Take, Pieces, JoinCommas, ParseStart, Trim;
    SplitJoin(qs);
    SplitJoin([bad] + qs);
    TakeBreak(Progress([], None), bad);
    assert ([bad] + qs)[1..] == qs;
  }

  lemma {:induction false} ParamPiecesAppend(p: Progress, pieces: seq<string>, ps: seq<Param>)
    requires p.current.Some? && |pieces| == |ps| && forall i :: 0 <= i < |ps| ==> ParseParam(pieces[i]) == Some(ps[i])
    ensures TakeAll(p, pieces) == p.(current := Some(p.current.value.(parameters := p.current.value.parameters + ps)))
    decreases pieces
  {
    hide ParseParam, ParseStart, Trim;
    var c := p.current.value;
    if pieces == [] {
      assert c.parameters + ps == c.parameters;
    } else {
      TrimTwice(pieces[0]);
      NothingIsNothing();
      var q := Take(p, pieces[0]);
      assert q == p.(current := Some(c.(parameters := c.parameters + [ps[0]])));
      ParamPiecesAppend(q, pieces[1..], ps[1..]);
      assert c.parameters + [ps[0]] + ps[1..] == c.parameters + ps;
    }
  }

  /** The parameters after a piece that opens a challenge are that challenge's, whatever its other parts are. */
  lemma ParamsJoinTheirChallenge(start: string, c: Challenge, pieces: seq<string>, ps: seq<Param>)
    requires Breaks(start) && ParseStart(Trim(start)) == Some(c) && Balanced(start)
    requires |pieces| == |ps| && forall i :: 0 <= i < |ps| ==> Balanced(pieces[i]) && ParseParam(pieces[i]) == Some(ps[i])
    ensures Parse(JoinCommas([start] + pieces)) == [c.(parameters := c.parameters + ps)]
  {
    hide Balanced, Breaks, Take, Pieces, JoinCommas, ParseStart, Trim, ParseParam;
    SplitJoin([start] + pieces);
    TakeBreak(Progress([], None), start);
    assert ([start] + pieces)[1..] == pieces;
    ParamPiecesAppend(Progress([], Some(c)), pieces, ps);
    assert [] + [c.(parameters := c.parameters + ps)] == [c.(parameters := c.parameters + ps)];
  }

  // ------------------------------------------------------------------ where pieces end

  ghost predicate IsQuotedString(s: string) {
    exists inner, value :: QuotedAs(inner, value) && s == "\"" + inner + "\""
  }

  /** Characters other than quotes and commas, and whole quoted strings. */
  ghost predicate Segmented(s: string)
    decreases |s|
  {
    || s == []
    || (s[0] != '"' && s[0] != ',' && Segmented(s[1..]))
    || (s[0] == '"' && exists n :: 1 < n <= |s| && IsQuotedString(s[..n]) && Segmented(s[n..]))
  }

  /** A quoted string that was opened and closes leaves the scan outside quotes, before what follows it. */
  lemma {:induction false} QuotedRunCloses(t: string, escaped: bool, out: string)
    requires Run(if escaped then Escaped else Quoted, t) == Plain
    ensures Unquote(t, escaped, out).Some?
    ensures var rest := Unquote(t, escaped, out).value.1;
            Run(Plain, rest) == Plain && (NoComma(if escaped then Escaped else Quoted, t) ==> NoComma(Plain, rest))
    decreases t
  {
    if t == [] || (!escaped && t[0] == '"') {
    } else if !escaped && t[0] == '\\' {
      QuotedRunCloses(t[1..], true, out);
    } else {
      QuotedRunCloses(t[1..], false, out + [t[0]]);
    }
  }

  lemma QuotedFront(s: string) returns (n: nat)
    requires s != [] && s[0] == '"' && Unquote(s[1..], false, []).Some?
    ensures 1 < n <= |s| && IsQuotedString(s[..n]) && s[n..] == Unquote(s[1..], false, []).value.1
  {
    hide Unquote, QuotedAs;
    var (value, rest) := Unquote(s[1..], false, []).value;
    var inner := UnquotedWasQuoted(s[1..], [], value, rest);
    assert value[0..] == value;
    n := |inner| + 2;
    assert s == ['"'] + s[1..];
    assert s[..n] == "\"" + inner + "\"" && s[n..] == rest;
  }

  lemma {:induction false} BalancedIsSegmented(s: string)
    requires Balanced(s)
    ensures Segmented(s)
    decreases |s|
  {
    if s == [] {
    } else if s[0] == '"' {
      QuotedRunCloses(s[1..], false, []);
      var n := QuotedFront(s);
      BalancedIsSegmented(s[n..]);
    } else {
      BalancedIsSegmented(s[1..]);
    }
  }

  lemma {:induction false} SegmentedIsBalanced(s: string)
    requires Segmented(s)
    ensures Balanced(s)
    decreases |s|
  {
    if s == [] {
    } else if s[0] != '"' {
      SegmentedIsBalanced(s[1..]);
    } else {
      var n :| 1 < n <= |s| && IsQuotedString(s[..n]) && Segmented(s[n..]);
      var inner, value :| QuotedAs(inner, value) && s[..n] == "\"" + inner + "\"";
      QuotedIsBalanced(inner, value);
      SegmentedIsBalanced(s[n..]);
      BalancedConcat(s[..n], s[n..]);
      assert s == s[..n] + s[n..];
    }
  }

  /** The scan that splits pieces and the grammar of pieces agree on every text. */
  lemma BalancedIsExact(s: string)
    ensures Balanced(s) <==> Segmented(s)
  {
    hide Balanced, Segmented;
    if Balanced(s) {
      BalancedIsSegmented(s);
    }
    if Segmented(s) {
      SegmentedIsBalanced(s);
    }
  }

  /** All pieces but the last are balanced; the last has no comma outside quotes. */
  lemma {:induction false} PiecesAreBalanced(s: string, mode: Mode, piece: string)
    requires NoComma(Plain, piece) && Run(Plain, piece) == mode
    ensures var ps := Pieces(s, mode, piece);
            ps != [] && NoComma(Plain, ps[|ps| - 1]) && forall i :: 0 <= i < |ps| - 1 ==> Balanced(ps[i])
    decreases s
  {
    if s == [] {
    } else if mode == Plain && s[0] == ',' {
      PiecesAreBalanced(s[1..], Plain, []);
      var rest := Pieces(s[1..], Plain, []);
      assert forall i :: 0 < i < |rest| + 1 ==> ([piece] + rest)[i] == rest[i - 1];
    } else {
      RunConcat(Plain, piece, [s[0]]);
      assert [s[0]][1..] == [] && NoComma(mode, [s[0]]);
      PiecesAreBalanced(s[1..], Next(mode, s[0]), piece + [s[0]]);
    }
  }

  /** The text is segmented up to a quote at `m` that is never closed. */
  ghost predicate IsOpenAt(s: string, m: int) {
    0 <= m < |s| && Segmented(s[..m]) && s[m] == '"' && Unquote(s[m + 1..], false, []) == None
  }

  ghost predicate IsUnclosed(s: string) {
    exists m :: IsOpenAt(s, m)
  }

  lemma {:induction false} NoCommaTail(mode: Mode, s: string, t: string)
    requires NoComma(mode, s + t)
    ensures NoComma(Run(mode, s), t)
    decreases s
  {
    if s == [] {
      assert s + t == t;
    } else {
      assert (s + t)[1..] == s[1..] + t;
      NoCommaTail(Next(mode, s[0]), s[1..], t);
    }
  }

  lemma ClosedFront(s: string, n: nat)
    requires n <= |s| && IsQuotedString(s[..n])
    ensures Run(Plain, s) == Run(Plain, s[n..]) && (NoComma(Plain, s) ==> NoComma(Plain, s[n..]))
  {
    var inner, value :| QuotedAs(inner, value) && s[..n] == "\"" + inner + "\"";
    QuotedIsBalanced(inner, value);
    assert s == s[..n] + s[n..];
    hide QuotedAs, IsQuotedString;
    RunConcat(Plain, s[..n], s[n..]);
    if NoComma(Plain, s) {
      NoCommaTail(Plain, s[..n], s[n..]);
    }
  }

  /** A text without outside commas that is not segmented has a quote that is never closed. */
  lemma {:induction false} UnbalancedIsOpen(s: string) returns (m: nat)
    requires NoComma(Plain, s) && Run(Plain, s) != Plain
    ensures IsOpenAt(s, m)
    decreases |s|
  {
    if s[0] == '"' && Unquote(s[1..], false, []) == None {
      m := 0;
    } else if s[0] == '"' {
      var n := QuotedFront(s);
      ClosedFront(s, n);
      var m' := UnbalancedIsOpen(s[n..]);
      m := n + m';
      assert s[..m][..n] == s[..n] && s[..m][n..] == s[n..][..m'];
      assert s[n..][m' + 1..] == s[m + 1..];
    } else {
      var m' := UnbalancedIsOpen(s[1..]);
      m := m' + 1;
      assert s[..m][1..] == s[1..][..m'];
      assert s[1..][m' + 1..] == s[m + 1..];
    }
  }

  lemma NothingRead()
    ensures NoComma(Plain, []) && Run(Plain, []) == Plain
  {
  }

  /**
   * Where any value is split: the pieces with commas between them are the value; each piece is
   * made of characters other than quotes and commas and of whole quoted strings, except that the
   * last may have a quote that is never closed.
   */
  lemma SplitIsExact(value: string)
    ensures var ps := Pieces(value, Plain, []);
            && ps != [] && JoinCommas(ps) == value
            && (forall i :: 0 <= i < |ps| - 1 ==> Segmented(ps[i]))
            && (Segmented(ps[|ps| - 1]) || IsUnclosed(ps[|ps| - 1]))
  {
    hide Pieces, JoinCommas, NoComma, Run, Segmented, Unquote, IsOpenAt;
    PiecesRejoin(value, Plain, []);
    assert [] + value == value;
    NothingRead();
    PiecesAreBalanced(value, Plain, []);
    var ps := Pieces(value, Plain, []);
    forall i | 0 <= i < |ps| - 1 ensures Segmented(ps[i]) {
      BalancedIsSegmented(ps[i]);
    }
    var last := ps[|ps| - 1];
    if Run(Plain, last) == Plain {
      BalancedIsSegmented(last);
    } else {
      var m := UnbalancedIsOpen(last);
    }
  }
}
