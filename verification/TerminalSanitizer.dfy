/** Stripping escape sequences and control runes from what a terminal is shown: the index-driven
    scanner against a grammar of tokens. */
module TerminalSanitizer {

  type Rune = nat

  const BEL: Rune := 0x07
  const ESC: Rune := 0x1b
  const OPEN_BRACKET: Rune := 0x5b
  const BACKSLASH: Rune := 0x5c
  const CLOSE_BRACKET: Rune := 0x5d

  datatype Terminator = Bel | St | Unterminated
  datatype Final = Final(rune: Rune) | NoFinal

  /** A control sequence has its parameter bytes, its intermediate bytes and a final byte (ECMA-48,
      section 5.4); one that is cut short has no final byte. */
  datatype Token =
    | Text(rune: Rune)
    | Control(rune: Rune)
    | Csi(params: seq<Rune>, inters: seq<Rune>, final: Final)
    | Osc(body: seq<Rune>, end: Terminator)
    | LoneEsc

  predicate IsControl(r: Rune) {
    r < 0x20 || r == 0x7f || 0x80 <= r <= 0x9f
  }

  predicate IsUnsafe(r: Rune) {
    r == ESC || IsControl(r)
  }

  predicate IsParam(r: Rune) { 0x30 <= r <= 0x3f }

  predicate IsInter(r: Rune) { 0x20 <= r <= 0x2f }

  predicate IsFinal(r: Rune) { 0x40 <= r <= 0x7e }

  // ---------------------------------------------------------------------------------------
  // The grammar
  // ---------------------------------------------------------------------------------------

  function Spell(t: Token): (s: seq<Rune>)
    ensures s != []
  {
    match t
    case Text(r) => [r]
    case Control(r) => [r]
    case Csi(ps, is', f) => [ESC, OPEN_BRACKET] + ps + is' + (if f.Final? then [f.rune] else [])
    case Osc(body, end) =>
      [ESC, CLOSE_BRACKET] + body + (match end case Bel => [BEL] case St => [ESC, BACKSLASH] case Unterminated => [])
    case LoneEsc => [ESC]
  }

  /** t is a token of the language when `rest` comes after it: each takes as much as it can. */
  ghost predicate Fits(t: Token, rest: seq<Rune>) {
    match t
    case Text(r) => !IsUnsafe(r)
    case Control(r) => IsControl(r) && r != ESC
    case Csi(ps, is', f) =>
      && (forall i :: 0 <= i < |ps| ==> IsParam(ps[i])) && (forall i :: 0 <= i < |is'| ==> IsInter(is'[i]))
      && (f.Final? ==> IsFinal(f.rune))
      && (f.NoFinal? && rest != [] ==>
            !IsFinal(rest[0]) && !IsInter(rest[0]) && (is' == [] ==> !IsParam(rest[0])))
    case Osc(body, end) =>
      && (forall i :: 0 <= i < |body| ==> body[i] != BEL)
      && (forall i :: 0 <= i < |body| - 1 ==> !(body[i] == ESC && body[i + 1] == BACKSLASH))
      && (end.Unterminated? ==> rest == [])
    case LoneEsc => rest == [] || (rest[0] != OPEN_BRACKET && rest[0] != CLOSE_BRACKET)
  }

  function SpellAll(ts: seq<Token>): seq<Rune> {
    if ts == [] then [] else Spell(ts[0]) + SpellAll(ts[1..])
  }

  /** ts is a sentence: every token fits before what follows it. */
  ghost predicate Parses(ts: seq<Token>) {
    ts == [] || (Fits(ts[0], SpellAll(ts[1..])) && Parses(ts[1..]))
  }

  function TextOf(ts: seq<Token>): seq<Rune> {
    if ts == [] then [] else (if ts[0].Text? then [ts[0].rune] else []) + TextOf(ts[1..])
  }

  // ---------------------------------------------------------------------------------------
  // One token at the front
  // ---------------------------------------------------------------------------------------

  function Params(s: seq<Rune>): (n: nat)
    ensures n <= |s|
  {
    if s == [] || !IsParam(s[0]) then 0 else 1 + Params(s[1..])
  }

  function Inters(s: seq<Rune>): (n: nat)
    ensures n <= |s|
  {
    if s == [] || !IsInter(s[0]) then 0 else 1 + Inters(s[1..])
  }

  predicate AtSt(s: seq<Rune>) {
    |s| > 1 && s[0] == ESC && s[1] == BACKSLASH
  }

  function Body(s: seq<Rune>): (n: nat)
    ensures n <= |s|
  {
    if s == [] || s[0] == BEL || AtSt(s) then 0 else 1 + Body(s[1..])
  }

  function Head(s: seq<Rune>): Token
    requires s != []
  {
    if s[0] != ESC then (if IsControl(s[0]) then Control(s[0]) else Text(s[0]))
    else if |s| > 1 && s[1] == OPEN_BRACKET then
      var p := Params(s[2..]);
      var n := Inters(s[2 + p..]);
      var e := 2 + p + n;
      Csi(s[2..2 + p], s[2 + p..e], if e < |s| && IsFinal(s[e]) then Final(s[e]) else NoFinal)
    else if |s| > 1 && s[1] == CLOSE_BRACKET then
      var e := 2 + Body(s[2..]);
      Osc(s[2..e], if e == |s| then Unterminated else if s[e] == BEL then Bel else St)
    else LoneEsc
  }

  lemma {:induction false} ParamsSays(s: seq<Rune>)
    ensures forall i :: 0 <= i < Params(s) ==> IsParam(s[i])
    ensures Params(s) < |s| ==> !IsParam(s[Params(s)])
  {
    if s != [] && IsParam(s[0]) {
      ParamsSays(s[1..]);
    }
  }

  lemma {:induction false} IntersSays(s: seq<Rune>)
    ensures forall i :: 0 <= i < Inters(s) ==> IsInter(s[i])
    ensures Inters(s) < |s| ==> !IsInter(s[Inters(s)])
  {
    if s != [] && IsInter(s[0]) {
      IntersSays(s[1..]);
    }
  }

  lemma {:induction false} BodySays(s: seq<Rune>)
    ensures forall i :: 0 <= i < Body(s) ==> s[i] != BEL && !AtSt(s[i..])
    ensures Body(s) < |s| ==> s[Body(s)] == BEL || AtSt(s[Body(s)..])
  {
    if s != [] && s[0] != BEL && !AtSt(s) {
      BodySays(s[1..]);
      forall i | 0 <= i < Body(s) ensures s[i] != BEL && !AtSt(s[i..]) {
        if i > 0 {
          assert s[1..][i - 1..] == s[i..];
        } else {
          assert s[0..] == s;
        }
      }
      assert s[1..][Body(s) - 1..] == s[Body(s)..];
    }
  }

  ghost predicate HeadOk(s: seq<Rune>)
    requires s != []
  {
    var n := |Spell(Head(s))|; n <= |s| && s[..n] == Spell(Head(s)) && Fits(Head(s), s[n..])
  }

  lemma CsiSpelled(s: seq<Rune>, p: nat, e: nat)
    requires 2 <= p <= e <= |s| && s[0] == ESC && s[1] == OPEN_BRACKET
    ensures Spell(Csi(s[2..p], s[p..e], NoFinal)) == s[..e]
    ensures e < |s| ==> Spell(Csi(s[2..p], s[p..e], Final(s[e]))) == s[..e + 1]
  {
    assert [ESC, OPEN_BRACKET] + s[2..p] == s[..p];
    assert s[..p] + s[p..e] == s[..e];
  }

  lemma CsiBytes(s: seq<Rune>, p: nat, e: nat)
    requires 2 <= p <= e <= |s| && p == 2 + Params(s[2..]) && e == p + Inters(s[p..])
    ensures forall i :: 0 <= i < p - 2 ==> IsParam(s[2..p][i])
    ensures forall i :: 0 <= i < e - p ==> IsInter(s[p..e][i])
    ensures e < |s| ==> !IsInter(s[e]) && (p == e ==> !IsParam(s[e]))
  {
    ParamsSays(s[2..]);
    IntersSays(s[p..]);
  }

  lemma CsiFits(s: seq<Rune>)
    requires |s| > 1 && s[0] == ESC && s[1] == OPEN_BRACKET
    ensures HeadOk(s)
    ensures var e := 2 + Params(s[2..]) + Inters(s[2 + Params(s[2..])..]);
      |Spell(Head(s))| == if e < |s| && IsFinal(s[e]) then e + 1 else e
  {
    hide Spell, Params, Inters;
    var p := 2 + Params(s[2..]);
    var e := p + Inters(s[p..]);
    CsiSpelled(s, p, e);
    CsiBytes(s, p, e);
  }

  lemma OscSpelled(s: seq<Rune>, e: nat)
    requires 2 <= e <= |s| && s[0] == ESC && s[1] == CLOSE_BRACKET
    ensures Spell(Osc(s[2..e], Unterminated)) == s[..e]
    ensures e < |s| && s[e] == BEL ==> Spell(Osc(s[2..e], Bel)) == s[..e + 1]
    ensures e < |s| && AtSt(s[e..]) ==> e + 2 <= |s| && Spell(Osc(s[2..e], St)) == s[..e + 2]
  {
    assert [ESC, CLOSE_BRACKET] + s[2..e] == s[..e];
    if e < |s| && AtSt(s[e..]) {
      assert s[..e + 2] == s[..e] + [ESC, BACKSLASH];
    }
  }

  lemma OscBody(s: seq<Rune>, e: nat)
    requires 2 <= e <= |s| && e == 2 + Body(s[2..])
    ensures forall i :: 0 <= i < e - 2 ==> s[2..e][i] != BEL
    ensures forall i :: 0 <= i < e - 3 ==> !(s[2..e][i] == ESC && s[2..e][i + 1] == BACKSLASH)
    ensures e < |s| ==> s[e] == BEL || AtSt(s[e..])
  {
    var t, n := s[2..], e - 2;
    BodySays(t);
    hide Body, AtSt;
    assert s[2..e] == t[..n] && s[e..] == t[n..] && (e < |s| ==> s[e] == t[n]);
    forall i | 0 <= i < n ensures t[..n][i] != BEL { assert t[i] != BEL; }
    forall i | 0 <= i < n - 1 ensures !(t[..n][i] == ESC && t[..n][i + 1] == BACKSLASH) {
      NoStAt(t, i);
      assert t[..n][i] == t[i] && t[..n][i + 1] == t[i + 1];
    }
  }

  lemma NoStAt(s: seq<Rune>, i: nat)
    requires i + 1 < |s| && !AtSt(s[i..])
    ensures !(s[i] == ESC && s[i + 1] == BACKSLASH)
  {
  }

  lemma OscFits(s: seq<Rune>)
    requires |s| > 1 && s[0] == ESC && s[1] == CLOSE_BRACKET
    ensures HeadOk(s)
    ensures var e := 2 + Body(s[2..]);
      |Spell(Head(s))| == if e == |s| then e else if s[e] == BEL then e + 1 else e + 2
  {
    hide Spell, Body, AtSt;
    var e := 2 + Body(s[2..]);
    OscSpelled(s, e);
    OscBody(s, e);
  }

  /** The token at the front is there, and fits. */
  lemma HeadFits(s: seq<Rune>)
    requires s != []
    ensures HeadOk(s)
  {
    if s[0] == ESC && |s| > 1 && s[1] == OPEN_BRACKET {
      hide HeadOk;
      CsiFits(s);
    } else if s[0] == ESC && |s| > 1 && s[1] == CLOSE_BRACKET {
      hide HeadOk;
      OscFits(s);
    }
  }

  lemma {:induction false} ParamsIs(a: seq<Rune>, rest: seq<Rune>)
    requires forall i :: 0 <= i < |a| ==> IsParam(a[i])
    requires rest != [] ==> !IsParam(rest[0])
    ensures Params(a + rest) == |a|
  {
    if a == [] {
      assert a + rest == rest;
    } else {
      assert (a + rest)[1..] == a[1..] + rest;
      ParamsIs(a[1..], rest);
    }
  }

  lemma {:induction false} IntersIs(a: seq<Rune>, rest: seq<Rune>)
    requires forall i :: 0 <= i < |a| ==> IsInter(a[i])
    requires rest != [] ==> !IsInter(rest[0])
    ensures Inters(a + rest) == |a|
  {
    if a == [] {
      assert a + rest == rest;
    } else {
      assert (a + rest)[1..] == a[1..] + rest;
      IntersIs(a[1..], rest);
    }
  }

  lemma {:induction false} BodyIs(a: seq<Rune>, rest: seq<Rune>)
    requires forall i :: 0 <= i < |a| ==> a[i] != BEL
    requires forall i :: 0 <= i < |a| - 1 ==> !(a[i] == ESC && a[i + 1] == BACKSLASH)
    requires rest == [] || rest[0] == BEL || AtSt(rest)
    ensures Body(a + rest) == |a|
  {
    if a == [] {
      assert a + rest == rest;
    } else {
      assert (a + rest)[1..] == a[1..] + rest;
      assert !AtSt(a + rest) by {
        if |a| == 1 {
          assert rest != [] ==> (a + rest)[1] == rest[0];
        }
      }
      BodyIs(a[1..], rest);
    }
  }

  lemma CsiSplits(ps: seq<Rune>, is': seq<Rune>, tail: seq<Rune>)
    ensures var s := [ESC, OPEN_BRACKET] + ps + is' + tail;
      && s[0] == ESC && s[1] == OPEN_BRACKET && s[2..] == ps + (is' + tail)
      && s[2 + |ps|..] == is' + tail && s[2..2 + |ps|] == ps && s[2 + |ps|..2 + |ps| + |is'|] == is'
      && (tail != [] ==> s[2 + |ps| + |is'|] == tail[0])
  {
  }

  lemma CsiIsHead(ps: seq<Rune>, is': seq<Rune>, f: Final, rest: seq<Rune>)
    requires Fits(Csi(ps, is', f), rest)
    ensures Head(Spell(Csi(ps, is', f)) + rest) == Csi(ps, is', f)
  {
    hide Params, Inters;
    var tail := (if f.Final? then [f.rune] else []) + rest;
    var s := [ESC, OPEN_BRACKET] + ps + is' + tail;
    assert Spell(Csi(ps, is', f)) + rest == s;
    CsiSplits(ps, is', tail);
    ParamsIs(ps, is' + tail);
    IntersIs(is', tail);
    assert Head(s) == Csi(ps, is', f);
  }

  lemma OscIsHead(body: seq<Rune>, end: Terminator, rest: seq<Rune>)
    requires Fits(Osc(body, end), rest)
    ensures Head(Spell(Osc(body, end)) + rest) == Osc(body, end)
  {
    var close := match end case Bel => [BEL] case St => [ESC, BACKSLASH] case Unterminated => [];
    var s := Spell(Osc(body, end)) + rest;
    assert s == [ESC, CLOSE_BRACKET] + body + (close + rest);
    BodyIs(body, close + rest);
    OscSplits(body, close + rest);
    hide Body, AtSt, Spell, Fits;
  }

  lemma OscSplits(body: seq<Rune>, tail: seq<Rune>)
    ensures var s := [ESC, CLOSE_BRACKET] + body + tail;
      && s[0] == ESC && s[1] == CLOSE_BRACKET && s[2..] == body + tail
      && s[2..2 + |body|] == body && s[2 + |body|..] == tail && (tail != [] ==> s[2 + |body|] == tail[0])
  {
  }

  /** Only one token fits at the front. */
  lemma FitsIsHead(t: Token, rest: seq<Rune>)
    requires Fits(t, rest)
    ensures Head(Spell(t) + rest) == t
  {
    match t {
      case Csi(ps, is', f) => CsiIsHead(ps, is', f, rest);
      case Osc(body, end) => OscIsHead(body, end, rest);
      case _ =>
    }
  }

  // ---------------------------------------------------------------------------------------
  // The whole text
  // ---------------------------------------------------------------------------------------

  function Tokens(s: seq<Rune>): seq<Token>
    decreases |s|
  {
    if s == [] then []
    else
      HeadFits(s);
      [Head(s)] + Tokens(s[|Spell(Head(s))|..])
  }

  /** Every text is a sentence of the grammar. */
  lemma {:induction false} TokensParse(s: seq<Rune>)
    ensures Parses(Tokens(s)) && SpellAll(Tokens(s)) == s
    decreases |s|
  {
    if s != [] {
      hide Head, Fits, Spell, Tokens, Parses, SpellAll;
      var n := FirstToken(s);
      TokensParse(s[n..]);
      Consed(Head(s), Tokens(s[n..]));
    }
  }

  lemma FirstToken(s: seq<Rune>) returns (n: nat)
    requires s != []
    ensures 0 < n <= |s| && n == |Spell(Head(s))| && Tokens(s) == [Head(s)] + Tokens(s[n..])
    ensures s == Spell(Head(s)) + s[n..] && Fits(Head(s), s[n..])
  {
    hide Head, Fits, Spell;
    HeadFits(s);
    n := |Spell(Head(s))|;
    assert s == s[..n] + s[n..];
  }

  lemma Consed(t: Token, ts: seq<Token>)
    ensures SpellAll([t] + ts) == Spell(t) + SpellAll(ts)
    ensures Parses([t] + ts) <==> Fits(t, SpellAll(ts)) && Parses(ts)
  {
    hide Fits, Spell;
    assert ([t] + ts)[1..] == ts;
  }

  /** And of one sentence only. */
  lemma {:induction false} ParseIsUnique(ts: seq<Token>)
    requires Parses(ts)
    ensures Tokens(SpellAll(ts)) == ts
  {
    hide Head, Fits, Spell, Tokens;
    if ts == [] {
      NothingToParse();
    } else {
      ParseIsUnique(ts[1..]);
      TokensOfCons(ts[0], SpellAll(ts[1..]));
      assert ts == [ts[0]] + ts[1..];
    }
  }

  lemma NothingToParse()
    ensures Tokens([]) == []
  {
  }

  /** A text that begins with a token that fits there has it as its first token. */
  lemma TokensOfCons(t: Token, rest: seq<Rune>)
    requires Fits(t, rest)
    ensures Tokens(Spell(t) + rest) == [t] + Tokens(rest)
  {
    FitsIsHead(t, rest);
    SpellNotEmpty(t);
    hide Head, Fits, Spell;
    var s := Spell(t) + rest;
    var n := FirstToken(s);
    assert s[|Spell(t)|..] == rest;
  }

  lemma SpellNotEmpty(t: Token)
    ensures Spell(t) != []
  {
  }

  ghost predicate Clean(s: seq<Rune>) {
    forall i :: 0 <= i < |s| ==> !IsUnsafe(s[i])
  }

  ghost predicate Subsequence(a: seq<Rune>, s: seq<Rune>) {
    if a == [] then true
    else if s == [] then false
    else (a[0] == s[0] && Subsequence(a[1..], s[1..])) || Subsequence(a, s[1..])
  }

  lemma {:induction false} SubsequenceAfter(a: seq<Rune>, p: seq<Rune>, s: seq<Rune>)
    requires Subsequence(a, s)
    ensures Subsequence(a, p + s)
  {
    if p == [] {
      assert p + s == s;
    } else {
      SubsequenceAfter(a, p[1..], s);
      assert (p + s)[1..] == p[1..] + s;
    }
  }

  /** What is left holds no control rune and no escape, and is what was there in the same order. */
  lemma {:induction false} TextIsClean(ts: seq<Token>)
    requires Parses(ts)
    ensures Clean(TextOf(ts)) && Subsequence(TextOf(ts), SpellAll(ts))
  {
    if ts != [] {
      var rest := SpellAll(ts[1..]);
      TextIsClean(ts[1..]);
      if ts[0].Text? {
        assert TextOf(ts)[1..] == TextOf(ts[1..]);
        assert SpellAll(ts)[1..] == rest;
      } else {
        assert TextOf(ts) == TextOf(ts[1..]);
        SubsequenceAfter(TextOf(ts[1..]), Spell(ts[0]), rest);
      }
    }
  }

  /** A clean text is left alone, so the fast path says what the loop would. */
  lemma {:induction false} CleanIsKept(s: seq<Rune>)
    requires Clean(s)
    ensures TextOf(Tokens(s)) == s
  {
    if s != [] {
      assert !IsUnsafe(s[0]);
      CleanIsKept(s[1..]);
      CleanToken(s);
    }
  }

  lemma CleanToken(s: seq<Rune>)
    requires s != [] && !IsUnsafe(s[0])
    ensures TextOf(Tokens(s)) == [s[0]] + TextOf(Tokens(s[1..]))
  {
    assert Tokens(s) == [Text(s[0])] + Tokens(s[1..]);
  }

  /** Sanitizing twice is sanitizing once. */
  lemma Idempotent(s: seq<Rune>)
    ensures TextOf(Tokens(TextOf(Tokens(s)))) == TextOf(Tokens(s))
  {
    TokensParse(s);
    TextIsClean(Tokens(s));
    CleanIsKept(TextOf(Tokens(s)));
  }

  // ---------------------------------------------------------------------------------------
  // The scanner
  // ---------------------------------------------------------------------------------------

  ghost predicate EndsToken(runes: seq<Rune>, start: nat, last: nat)
    requires start < |runes|
  {
    start <= last < |runes| && last + 1 - start == |Spell(Head(runes[start..]))|
  }

  lemma CsiEnds(runes: seq<Rune>, start: nat, p: nat, i: nat)
    requires start + 2 <= p <= i <= |runes| && runes[start] == ESC && runes[start + 1] == OPEN_BRACKET
    requires forall k :: start + 2 <= k < p ==> IsParam(runes[k])
    requires forall k :: p <= k < i ==> IsInter(runes[k])
    requires p < |runes| ==> !IsParam(runes[p])
    requires i < |runes| ==> !IsInter(runes[i])
    ensures EndsToken(runes, start, if i < |runes| && IsFinal(runes[i]) then i else i - 1)
  {
    hide Spell, Params, Inters, Head, HeadOk, Fits;
    var s := runes[start..];
    CsiFits(s);
    assert Params(s[2..]) == p - start - 2 by {
      assert s[2..] == runes[start + 2..p] + runes[p..];
      ParamsIs(runes[start + 2..p], runes[p..]);
    }
    assert Inters(s[p - start..]) == i - p by {
      assert s[p - start..] == runes[p..i] + runes[i..];
      IntersIs(runes[p..i], runes[i..]);
    }
    hide IsParam, IsInter;
  }

  method SkipCsi(runes: seq<Rune>, start: nat) returns (last: nat)
    requires start + 1 < |runes| && runes[start] == ESC && runes[start + 1] == OPEN_BRACKET
    ensures EndsToken(runes, start, last)
  {
    hide EndsToken;
    var i := start + 2;
    while i < |runes| && IsParam(runes[i])
      invariant start + 2 <= i <= |runes|
      invariant forall k :: start + 2 <= k < i ==> IsParam(runes[k])
    {
      i := i + 1;
    }
    ghost var p := i;
    while i < |runes| && IsInter(runes[i])
      invariant p <= i <= |runes|
      invariant forall k :: p <= k < i ==> IsInter(runes[k])
    {
      i := i + 1;
    }
    CsiEnds(runes, start, p, i);
    if i < |runes| && IsFinal(runes[i]) {
      return i;
    }
    return i - 1;
  }

  lemma OscEnds(runes: seq<Rune>, start: nat, i: nat)
    requires start + 2 <= i <= |runes| && runes[start] == ESC && runes[start + 1] == CLOSE_BRACKET
    requires forall k :: start + 2 <= k < i ==> runes[k] != BEL && !(k + 1 < |runes| && runes[k] == ESC && runes[k + 1] == BACKSLASH)
    requires i < |runes| ==> runes[i] == BEL || (i + 1 < |runes| && runes[i] == ESC && runes[i + 1] == BACKSLASH)
    ensures EndsToken(runes, start, if i == |runes| then i - 1 else if runes[i] == BEL then i else i + 1)
  {
    hide Spell, Body, Head;
    var s := runes[start..];
    OscFits(s);
    assert s[2..] == runes[start + 2..i] + runes[i..];
    assert i < |runes| && runes[i] != BEL ==> AtSt(runes[i..]);
    BodyIs(runes[start + 2..i], runes[i..]);
  }

  method SkipOsc(runes: seq<Rune>, start: nat) returns (last: nat)
    requires start + 1 < |runes| && runes[start] == ESC && runes[start + 1] == CLOSE_BRACKET
    ensures EndsToken(runes, start, last)
  {
    hide EndsToken;
    var i := start + 2;
    while i < |runes|
      invariant start + 2 <= i <= |runes|
      invariant forall k :: start + 2 <= k < i ==>
        runes[k] != BEL && !(k + 1 < |runes| && runes[k] == ESC && runes[k + 1] == BACKSLASH)
    {
      if runes[i] == BEL {
        OscEnds(runes, start, i);
        return i;
      }
      if runes[i] == ESC && i + 1 < |runes| && runes[i + 1] == BACKSLASH {
        OscEnds(runes, start, i);
        return i + 1;
      }
      i := i + 1;
    }
    OscEnds(runes, start, i);
    return |runes| - 1;
  }

  /** The index of the last rune of the escape sequence that begins at `start`. */
  method SkipEscapeSequence(runes: seq<Rune>, start: nat) returns (last: nat)
    requires start < |runes| && runes[start] == ESC
    ensures EndsToken(runes, start, last)
    ensures runes[start..last + 1] == Spell(Head(runes[start..]))
  {
    last := start;
    if start + 1 < |runes| && runes[start + 1] == OPEN_BRACKET {
      last := SkipCsi(runes, start);
    } else if start + 1 < |runes| && runes[start + 1] == CLOSE_BRACKET {
      last := SkipOsc(runes, start);
    }
    HeadFits(runes[start..]);
    assert runes[start..][..last + 1 - start] == runes[start..last + 1];
  }

  /** One round of the scan: the token at i is dropped or kept, and the scan goes on behind it. */
  lemma TokenAt(s: seq<Rune>, i: nat)
    requires i < |s|
    ensures var n := |Spell(Head(s[i..]))|;
      && i + n <= |s|
      && (s[i] != ESC ==> n == 1)
      && TextOf(Tokens(s[i..])) == (if IsUnsafe(s[i]) then [] else [s[i]]) + TextOf(Tokens(s[i + n..]))
  {
    HeadFits(s[i..]);
    var n := |Spell(Head(s[i..]))|;
    assert s[i..][n..] == s[i + n..];
    assert Tokens(s[i..])[1..] == Tokens(s[i + n..]);
  }

  lemma Regroup(out: seq<Rune>, r: Rune, rest: seq<Rune>)
    ensures (out + [r]) + rest == out + ([r] + rest) && [] + rest == rest
  {
  }

  /** The text tokens of the one sentence that spells s: no control rune of either set, and no DEL,
      is left, and a text without any is returned as it is. */
  method SanitizeForTerminal(s: seq<Rune>) returns (out: seq<Rune>)
    ensures out == Sanitized(s)
    ensures Clean(out) && Subsequence(out, s)
    ensures forall r :: r in out ==> 0x20 <= r < 0x7f || r >= 0xa0
    ensures (forall r :: r in s ==> 0x20 <= r < 0x7f || r >= 0xa0) ==> out == s
  {
    CleanMeans(s);
    hide Clean;
    hide Head, Fits, Spell, Tokens, TextOf, SpellAll, Subsequence;
    TokensParse(s);
    TextIsClean(Tokens(s));
    if forall i :: 0 <= i < |s| ==> !IsUnsafe(s[i]) {
      assert Clean(s) by { CleanSays(s); }
      CleanIsKept(s);
      return s;
    }
    assert !Clean(s) by { CleanSays(s); }
    out := [];
    var i := 0;
    assert s[0..] == s;
    while i < |s|
      invariant 0 <= i <= |s|
      invariant out + TextOf(Tokens(s[i..])) == TextOf(Tokens(s))
    {
      TokenAt(s, i);
      ghost var n := |Spell(Head(s[i..]))|;
      ghost var rest := TextOf(Tokens(s[i + n..]));
      assert [] + rest == rest;
      if s[i] == ESC {
        i := SkipEscapeSequence(s, i);
      } else if !IsControl(s[i]) {
        Regroup(out, s[i], rest);
        out := out + [s[i]];
      }
      i := i + 1;
    }
    assert s[i..] == [];
    NoTokens();
    CleanMeans(out);
  }

  lemma CleanSays(s: seq<Rune>)
    ensures Clean(s) <==> forall i :: 0 <= i < |s| ==> !IsUnsafe(s[i])
  {
  }

  lemma NoTokens()
    ensures TextOf(Tokens([])) == []
  {
  }

  // ---------------------------------------------------------------------------------------
  // The same in numbers
  // ---------------------------------------------------------------------------------------

  function Sanitized(s: seq<Rune>): seq<Rune> {
    TextOf(Tokens(s))
  }

  lemma CleanMeans(s: seq<Rune>)
    ensures Clean(s) <==> forall r :: r in s ==> 0x20 <= r < 0x7f || r >= 0xa0
  {
    forall i | 0 <= i < |s| ensures s[i] in s {}
  }

  lemma TokenGoes(t: Token, rest: seq<Rune>)
    requires Fits(t, rest)
    ensures Sanitized(Spell(t) + rest) == (if t.Text? then [t.rune] else []) + Sanitized(rest)
  {
    TokensOfCons(t, rest);
    assert ([t] + Tokens(rest))[1..] == Tokens(rest);
    hide Fits, Spell, Tokens;
  }

  /** One rune: a printable one stays, a control one goes; an escape that introduces neither kind of
      sequence goes alone. */
  lemma RuneGoes(r: Rune, rest: seq<Rune>)
    ensures 0x20 <= r < 0x7f || r >= 0xa0 ==> Sanitized([r] + rest) == [r] + Sanitized(rest)
    ensures (r < 0x20 && r != 0x1b) || 0x7f <= r <= 0x9f ==> Sanitized([r] + rest) == Sanitized(rest)
    ensures r == 0x1b && (rest == [] || (rest[0] != 0x5b && rest[0] != 0x5d)) ==> Sanitized([r] + rest) == Sanitized(rest)
    ensures Sanitized([]) == []
  {
    hide Sanitized;
    NoTokens();
    assert Sanitized([]) == TextOf(Tokens([])) by { SanitizedIs([]); }
    assert [] + Sanitized(rest) == Sanitized(rest);
    if 0x20 <= r < 0x7f || r >= 0xa0 {
      TokenGoes(Text(r), rest);
    } else if r != 0x1b {
      TokenGoes(Control(r), rest);
    } else if rest == [] || (rest[0] != 0x5b && rest[0] != 0x5d) {
      TokenGoes(LoneEsc, rest);
    }
  }

  lemma SanitizedIs(s: seq<Rune>)
    ensures Sanitized(s) == TextOf(Tokens(s))
  {
  }

  /** A control sequence goes whole: ESC [, parameters 0x30 to 0x3f, intermediates 0x20 to 0x2f and a
      final rune 0x40 to 0x7e. One that something else cuts short goes up to there. */
  lemma ControlSequenceGoes(ps: seq<Rune>, inters: seq<Rune>, f: Rune, rest: seq<Rune>)
    requires (forall r :: r in ps ==> 0x30 <= r <= 0x3f) && (forall r :: r in inters ==> 0x20 <= r <= 0x2f)
    ensures 0x40 <= f <= 0x7e ==> Sanitized([0x1b, 0x5b] + ps + inters + [f] + rest) == Sanitized(rest)
    ensures rest == [] || rest[0] > 0x7e || rest[0] < 0x20 || (0x30 <= rest[0] <= 0x3f && inters != []) ==>
              Sanitized([0x1b, 0x5b] + ps + inters + rest) == Sanitized(rest)
  {
    hide Sanitized;
    assert [] + Sanitized(rest) == Sanitized(rest);
    forall i | 0 <= i < |ps| ensures IsParam(ps[i]) { assert ps[i] in ps; }
    forall i | 0 <= i < |inters| ensures IsInter(inters[i]) { assert inters[i] in inters; }
    if 0x40 <= f <= 0x7e {
      var t := Csi(ps, inters, Final(f));
      assert Spell(t) + rest == [0x1b, 0x5b] + ps + inters + [f] + rest;
      TokenGoes(t, rest);
    }
    if rest == [] || rest[0] > 0x7e || rest[0] < 0x20 || (0x30 <= rest[0] <= 0x3f && inters != []) {
      var t := Csi(ps, inters, NoFinal);
      assert Spell(t) + rest == [0x1b, 0x5b] + ps + inters + rest;
      TokenGoes(t, rest);
    }
  }

  /** An operating system command goes whole, up to the first BEL or ESC \, or to the end. */
  lemma SystemCommandGoes(body: seq<Rune>, rest: seq<Rune>)
    requires forall i :: 0 <= i < |body| ==> body[i] != 0x07
    requires forall i :: 0 <= i < |body| - 1 ==> !(body[i] == 0x1b && body[i + 1] == 0x5c)
    ensures Sanitized([0x1b, 0x5d] + body + [0x07] + rest) == Sanitized(rest)
    ensures Sanitized([0x1b, 0x5d] + body + [0x1b, 0x5c] + rest) == Sanitized(rest)
    ensures Sanitized([0x1b, 0x5d] + body) == []
  {
    hide Sanitized;
    assert [] + Sanitized(rest) == Sanitized(rest);
    assert Spell(Osc(body, Bel)) + rest == [0x1b, 0x5d] + body + [0x07] + rest;
    TokenGoes(Osc(body, Bel), rest);
    assert Spell(Osc(body, St)) + rest == [0x1b, 0x5d] + body + [0x1b, 0x5c] + rest;
    TokenGoes(Osc(body, St), rest);
    assert Spell(Osc(body, Unterminated)) + [] == [0x1b, 0x5d] + body;
    TokenGoes(Osc(body, Unterminated), []);
    SanitizedIs([]);
    NoTokens();
  }
}
