/** The JSON grammar of RFC 8259 (sections 2 to 7) as trees with their exact text, and the splitter's
    behaviour on every well-formed array. */
module JsonText {
  import opened Bytes
  import opened JsonSplit

  const COLON: nat := 58

  /** A value with every byte of its text, insignificant whitespace included. */
  datatype Value =
    | Literal(text: seq<Byte>)
    | Number(neg: bool, whole: seq<Byte>, frac: seq<Byte>, exp: seq<Byte>)
    | String(body: seq<Byte>)
    | Array(pad: seq<Byte>, elements: seq<Element>)
    | Object(pad: seq<Byte>, members: seq<Member>)

  datatype Element = Element(before: seq<Byte>, value: Value, after: seq<Byte>)

  datatype Member = Member(before: seq<Byte>, name: seq<Byte>, pad: seq<Byte>, element: Element)

  // ---- the grammar ----------------------------------------------------------------------

  /** Section 2: insignificant whitespace. */
  predicate Pad(t: seq<Byte>) {
    forall i :: 0 <= i < |t| ==> t[i] == 32 || t[i] == 9 || t[i] == 10 || t[i] == 13
  }

  predicate Digits(t: seq<Byte>) { |t| > 0 && forall i :: 0 <= i < |t| ==> 48 <= t[i] <= 57 }

  /** Section 3. */
  predicate IsLiteral(t: seq<Byte>) {
    || t == [116, 114, 117, 101]
    || t == [102, 97, 108, 115, 101]
    || t == [110, 117, 108, 108]
  }

  /** Section 6. */
  predicate IsNumber(whole: seq<Byte>, frac: seq<Byte>, exp: seq<Byte>) {
    && Digits(whole) && (|whole| > 1 ==> whole[0] != 48)
    && (frac == [] || (frac[0] == 46 && Digits(frac[1..])))
    && (exp == [] || (
          && (exp[0] == 101 || exp[0] == 69)
          && (Digits(exp[1..]) || (|exp| > 1 && (exp[1] == 43 || exp[1] == 45) && Digits(exp[2..])))))
  }

  predicate HexDigit(c: Byte) { 48 <= c <= 57 || 65 <= c <= 70 || 97 <= c <= 102 }

  /** Section 7: no bare quote, backslash or control character; escapes as listed there. */
  predicate StringBody(t: seq<Byte>)
    decreases |t|
  {
    if |t| == 0 then true
    else if t[0] == BACKSLASH then
      if |t| < 2 then false
      else if t[1] == 117 then
        |t| >= 6 && HexDigit(t[2]) && HexDigit(t[3]) && HexDigit(t[4]) && HexDigit(t[5]) && StringBody(t[6..])
      else
        t[1] in [QUOTE, BACKSLASH, 47, 98, 102, 110, 114, 116] && StringBody(t[2..])
    else t[0] != QUOTE && t[0] >= 32 && StringBody(t[1..])
  }

  predicate WellFormed(v: Value)
    decreases v
  {
    match v
    case Literal(text) => IsLiteral(text)
    case Number(_, whole, frac, exp) => IsNumber(whole, frac, exp)
    case String(body) => StringBody(body)
    case Array(pad, elements) => Pad(pad) && forall i :: 0 <= i < |elements| ==> ElementOk(elements[i])
    case Object(pad, members) =>
      Pad(pad) && forall i :: 0 <= i < |members| ==>
                    Pad(members[i].before) && StringBody(members[i].name) && Pad(members[i].pad)
                    && ElementOk(members[i].element)
  }

  predicate ElementOk(e: Element)
    decreases e
  {
    Pad(e.before) && WellFormed(e.value) && Pad(e.after)
  }

  // ---- the text -------------------------------------------------------------------------

  function Text(v: Value): seq<Byte>
    decreases v
  {
    match v
    case Literal(text) => text
    case Number(neg, whole, frac, exp) => (if neg then [45] else []) + whole + frac + exp
    case String(body) => [QUOTE] + body + [QUOTE]
    case Array(pad, elements) =>
      [OPEN_BRACKET] + (if |elements| == 0 then pad else ElementsText(elements)) + [CLOSE_BRACKET]
    case Object(pad, members) =>
      [OPEN_BRACE] + (if |members| == 0 then pad else MembersText(members)) + [CLOSE_BRACE]
  }

  function ElementText(e: Element): seq<Byte>
    decreases e
  {
    e.before + Text(e.value) + e.after
  }

  function ElementsText(es: seq<Element>): seq<Byte>
    requires |es| > 0
    decreases es
  {
    if |es| == 1 then ElementText(es[0]) else ElementText(es[0]) + [COMMA] + ElementsText(es[1..])
  }

  function MemberText(m: Member): seq<Byte>
    decreases m
  {
    m.before + ([QUOTE] + m.name + [QUOTE]) + m.pad + [COLON] + ElementText(m.element)
  }

  function MembersText(ms: seq<Member>): seq<Byte>
    requires |ms| > 0
    decreases ms
  {
    if |ms| == 1 then MemberText(ms[0]) else MemberText(ms[0]) + [COMMA] + MembersText(ms[1..])
  }

  // ---- text standing in a body ----------------------------------------------------------

  predicate At(s: seq<Byte>, i: nat, t: seq<Byte>) { i + |t| <= |s| && s[i..i + |t|] == t }

  lemma AtConcat(s: seq<Byte>, i: nat, a: seq<Byte>, b: seq<Byte>)
    ensures At(s, i, a + b) <==> At(s, i, a) && At(s, i + |a|, b)
  {
    if i + |a| + |b| <= |s| {
      assert s[i..i + |a + b|] == s[i..i + |a|] + s[i + |a|..i + |a| + |b|];
      assert (a + b)[..|a|] == a && (a + b)[|a|..] == b;
    }
  }

  /** Between tokens: outside strings, and inside a bracket only with an element under way. */
  predicate Ready(sc: Scanner) { !sc.inStr && !sc.esc && sc.depth >= 0 && (sc.depth > 0 ==> sc.start.Some?) }

  // ---- scanning tokens ------------------------------------------------------------------

  lemma {:induction false} ScanPad(s: seq<Byte>, i: nat, t: seq<Byte>, sc: Scanner)
    requires At(s, i, t) && Pad(t) && Ready(sc)
    ensures Scan(s, i, sc) == Scan(s, i + |t|, sc)
    decreases |t|
  {
    if |t| > 0 {
      assert s[i] == t[0];
      assert s[i + 1..i + 1 + |t[1..]|] == t[1..];
      ScanPad(s, i + 1, t[1..], sc);
    }
  }

  /** A byte that only ever belongs to a token's interior. */
  predicate Plain(c: Byte) {
    && c != QUOTE && c != COMMA && !AsciiWhitespace(c)
    && c != OPEN_BRACKET && c != OPEN_BRACE && c != CLOSE_BRACKET && c != CLOSE_BRACE
  }

  lemma {:induction false} ScanPlain(s: seq<Byte>, i: nat, t: seq<Byte>, sc: Scanner)
    requires At(s, i, t) && Ready(sc) && |t| > 0 && forall k :: 0 <= k < |t| ==> Plain(t[k])
    ensures Scan(s, i, sc) == Scan(s, i + |t|, sc.Begun(i))
    decreases |t|
  {
    assert s[i] == t[0] && Plain(t[0]);
    assert Step(sc, s[i], i) == Go(sc.Begun(i));
    if |t| > 1 {
      assert s[i + 1..i + 1 + |t[1..]|] == t[1..];
      ScanPlain(s, i + 1, t[1..], sc.Begun(i));
    }
  }

  lemma {:induction false} ScanStringBody(s: seq<Byte>, i: nat, t: seq<Byte>, sc: Scanner)
    requires At(s, i, t) && StringBody(t) && sc.inStr && !sc.esc
    ensures Scan(s, i, sc) == Scan(s, i + |t|, sc)
    decreases |t|
  {
    if |t| > 0 {
      assert s[i] == t[0];
      if t[0] == BACKSLASH {
        assert s[i + 1] == t[1];
        assert Scan(s, i, sc) == Scan(s, i + 1, sc.(esc := true));
        assert Scan(s, i + 1, sc.(esc := true)) == Scan(s, i + 2, sc);
        if t[1] == 117 {
          ScanHex(s, i + 2, t[2..6], sc);
          assert s[i + 6..i + 6 + |t[6..]|] == t[6..];
          ScanStringBody(s, i + 6, t[6..], sc);
        } else {
          assert s[i + 2..i + 2 + |t[2..]|] == t[2..];
          ScanStringBody(s, i + 2, t[2..], sc);
        }
      } else {
        assert s[i + 1..i + 1 + |t[1..]|] == t[1..];
        ScanStringBody(s, i + 1, t[1..], sc);
      }
    }
  }

  lemma {:induction false} ScanHex(s: seq<Byte>, i: nat, t: seq<Byte>, sc: Scanner)
    requires At(s, i, t) && sc.inStr && !sc.esc && forall k :: 0 <= k < |t| ==> HexDigit(t[k])
    ensures Scan(s, i, sc) == Scan(s, i + |t|, sc)
    decreases |t|
  {
    if |t| > 0 {
      assert s[i] == t[0] && HexDigit(t[0]);
      assert s[i + 1..i + 1 + |t[1..]|] == t[1..];
      ScanHex(s, i + 1, t[1..], sc);
    }
  }

  lemma ScanString(s: seq<Byte>, i: nat, body: seq<Byte>, sc: Scanner)
    requires At(s, i, [QUOTE] + body + [QUOTE]) && StringBody(body) && Ready(sc)
    ensures Scan(s, i, sc) == Scan(s, i + |body| + 2, sc.Begun(i))
  {
    AtConcat(s, i, [QUOTE] + body, [QUOTE]);
    AtConcat(s, i, [QUOTE], body);
    assert s[i] == s[i..i + 1][0] == QUOTE;
    var inside := sc.Begun(i).(inStr := true);
    assert Scan(s, i, sc) == Scan(s, i + 1, inside);
    ScanStringBody(s, i + 1, body, inside);
    var j := i + 1 + |body|;
    assert s[j] == s[j..j + 1][0] == QUOTE;
    assert Scan(s, j, inside) == Scan(s, j + 1, sc.Begun(i));
  }

  lemma NumberIsPlain(v: Value)
    requires v.Number? && WellFormed(v)
    ensures |Text(v)| > 0 && forall k :: 0 <= k < |Text(v)| ==> Plain(Text(v)[k])
  {
    var t := Text(v);
    forall k | 0 <= k < |t| ensures Plain(t[k]) {
      var a := |if v.neg then [45] else []|;
      if a <= k < a + |v.whole| { assert t[k] == v.whole[k - a]; }
      var b := a + |v.whole|;
      if b <= k < b + |v.frac| {
        assert t[k] == v.frac[k - b];
        if k > b { assert t[k] == v.frac[1..][k - b - 1]; }
      }
      var c := b + |v.frac|;
      if c <= k {
        assert t[k] == v.exp[k - c];
        if k > c { assert t[k] == v.exp[1..][k - c - 1]; }
        if k > c + 1 { assert t[k] == v.exp[2..][k - c - 2]; }
      }
    }
  }

  lemma LiteralIsPlain(t: seq<Byte>)
    requires IsLiteral(t)
    ensures |t| > 0 && forall k :: 0 <= k < |t| ==> Plain(t[k])
  {
  }

  // ---- scanning values ------------------------------------------------------------------

  /** Scanning past a whole value begins an element at its first byte, if none was under way, and changes
      nothing else. */
  lemma {:induction false} ScanValue(s: seq<Byte>, i: nat, v: Value, sc: Scanner)
    requires At(s, i, Text(v)) && WellFormed(v) && Ready(sc)
    ensures Scan(s, i, sc) == Scan(s, i + |Text(v)|, sc.Begun(i))
    decreases v, 0
  {
    hide Scan, Step, At, StringBody, Pad, IsNumber, ElementsText, MembersText;
    match v {
      case Literal(text) =>
        LiteralIsPlain(text);
        ScanPlain(s, i, text, sc);
      case Number(_, _, _, _) =>
        NumberIsPlain(v);
        ScanPlain(s, i, Text(v), sc);
      case String(body) => ScanString(s, i, body, sc);
      case Array(pad, elements) =>
        var inner := if |elements| == 0 then pad else ElementsText(elements);
        ScanOpened(s, i, OPEN_BRACKET, inner, CLOSE_BRACKET, sc);
        var inside := sc.Begun(i).(depth := sc.depth + 1);
        if |elements| == 0 { ScanPad(s, i + 1, pad, inside); } else { ScanElements(s, i + 1, elements, inside); }
        ScanClosed(s, i, OPEN_BRACKET, inner, CLOSE_BRACKET, sc);
      case Object(pad, members) =>
        var inner := if |members| == 0 then pad else MembersText(members);
        ScanOpened(s, i, OPEN_BRACE, inner, CLOSE_BRACE, sc);
        var inside := sc.Begun(i).(depth := sc.depth + 1);
        if |members| == 0 { ScanPad(s, i + 1, pad, inside); } else { ScanMembers(s, i + 1, members, inside); }
        ScanClosed(s, i, OPEN_BRACE, inner, CLOSE_BRACE, sc);
    }
  }

  lemma ScanOpened(s: seq<Byte>, i: nat, open: Byte, inner: seq<Byte>, close: Byte, sc: Scanner)
    requires At(s, i, [open] + inner + [close]) && Ready(sc) && (open == OPEN_BRACKET || open == OPEN_BRACE)
    ensures At(s, i + 1, inner)
    ensures Scan(s, i, sc) == Scan(s, i + 1, sc.Begun(i).(depth := sc.depth + 1))
  {
    AtConcat(s, i, [open] + inner, [close]);
    AtConcat(s, i, [open], inner);
    assert s[i] == s[i..i + 1][0] == open;
  }

  lemma ScanClosed(s: seq<Byte>, i: nat, open: Byte, inner: seq<Byte>, close: Byte, sc: Scanner)
    requires At(s, i, [open] + inner + [close]) && Ready(sc) && (close == CLOSE_BRACKET || close == CLOSE_BRACE)
    ensures var j := i + 1 + |inner|;
            Scan(s, j, sc.Begun(i).(depth := sc.depth + 1)) == Scan(s, j + 1, sc.Begun(i))
  {
    AtConcat(s, i, [open] + inner, [close]);
    var j := i + 1 + |inner|;
    assert s[j] == s[j..j + 1][0] == close;
  }

  /** Inside a bracket: the element under way absorbs everything. */
  predicate Inside(sc: Scanner) { Ready(sc) && sc.depth > 0 }

  lemma ScanSeparator(s: seq<Byte>, i: nat, c: Byte, sc: Scanner)
    requires At(s, i, [c]) && Inside(sc) && (c == COMMA || c == COLON)
    ensures Scan(s, i, sc) == Scan(s, i + 1, sc)
  {
    assert s[i] == s[i..i + 1][0] == c;
  }

  lemma {:induction false} ScanElement(s: seq<Byte>, i: nat, e: Element, sc: Scanner)
    requires At(s, i, ElementText(e)) && ElementOk(e) && Inside(sc)
    ensures Scan(s, i, sc) == Scan(s, i + |ElementText(e)|, sc)
    decreases e, 1
  {
    hide Scan, Step, At, Text, Pad, WellFormed;
    AtConcat(s, i, e.before + Text(e.value), e.after);
    AtConcat(s, i, e.before, Text(e.value));
    ScanPad(s, i, e.before, sc);
    ScanValue(s, i + |e.before|, e.value, sc);
    ScanPad(s, i + |e.before| + |Text(e.value)|, e.after, sc);
  }

  lemma {:induction false} ScanElements(s: seq<Byte>, i: nat, es: seq<Element>, sc: Scanner)
    requires |es| > 0 && At(s, i, ElementsText(es)) && Inside(sc)
    requires forall k :: 0 <= k < |es| ==> ElementOk(es[k])
    ensures Scan(s, i, sc) == Scan(s, i + |ElementsText(es)|, sc)
    decreases es, 2
  {
    hide Scan, Step, At, ElementText, ElementOk;
    if |es| == 1 {
      ScanElement(s, i, es[0], sc);
    } else {
      var first := ElementText(es[0]);
      AtConcat(s, i, first + [COMMA], ElementsText(es[1..]));
      AtConcat(s, i, first, [COMMA]);
      ScanElement(s, i, es[0], sc);
      ScanSeparator(s, i + |first|, COMMA, sc);
      ScanElements(s, i + |first| + 1, es[1..], sc);
    }
  }

  predicate MemberOk(m: Member)
  {
    Pad(m.before) && StringBody(m.name) && Pad(m.pad) && ElementOk(m.element)
  }

  lemma {:induction false} ScanMember(s: seq<Byte>, i: nat, m: Member, sc: Scanner)
    requires At(s, i, MemberText(m)) && MemberOk(m) && Inside(sc)
    ensures Scan(s, i, sc) == Scan(s, i + |MemberText(m)|, sc)
    decreases m, 2
  {
    hide Scan, Step, At, ElementText, Pad, StringBody, ElementOk;
    var name := [QUOTE] + m.name + [QUOTE];
    AtConcat(s, i, m.before + name + m.pad + [COLON], ElementText(m.element));
    AtConcat(s, i, m.before + name + m.pad, [COLON]);
    AtConcat(s, i, m.before + name, m.pad);
    AtConcat(s, i, m.before, name);
    ScanPad(s, i, m.before, sc);
    var j := i + |m.before|;
    ScanString(s, j, m.name, sc);
    ScanPad(s, j + |name|, m.pad, sc);
    ScanSeparator(s, j + |name| + |m.pad|, COLON, sc);
    ScanElement(s, j + |name| + |m.pad| + 1, m.element, sc);
  }

  lemma {:induction false} ScanMembers(s: seq<Byte>, i: nat, ms: seq<Member>, sc: Scanner)
    requires |ms| > 0 && At(s, i, MembersText(ms)) && Inside(sc)
    requires forall k :: 0 <= k < |ms| ==> MemberOk(ms[k])
    ensures Scan(s, i, sc) == Scan(s, i + |MembersText(ms)|, sc)
    decreases ms, 3
  {
    hide Scan, Step, At, MemberText, MemberOk;
    if |ms| == 1 {
      ScanMember(s, i, ms[0], sc);
    } else {
      var first := MemberText(ms[0]);
      AtConcat(s, i, first + [COMMA], MembersText(ms[1..]));
      AtConcat(s, i, first, [COMMA]);
      ScanMember(s, i, ms[0], sc);
      ScanSeparator(s, i + |first|, COMMA, sc);
      ScanMembers(s, i + |first| + 1, ms[1..], sc);
    }
  }

  // ---- the top level --------------------------------------------------------------------

  /** One range per element: from the value's first byte to the separator after it. */
  function RangesOf(es: seq<Element>, i: nat): seq<Range>
    decreases |es|
  {
    if |es| == 0 then []
    else
      var start := i + |es[0].before|;
      var end := start + |Text(es[0].value)| + |es[0].after|;
      [Range(start, end)] + RangesOf(es[1..], end + 1)
  }

  lemma {:induction false} ScanTop(s: seq<Byte>, i: nat, es: seq<Element>, out: seq<Range>)
    requires |es| > 0 && At(s, i, ElementsText(es) + [CLOSE_BRACKET])
    requires forall k :: 0 <= k < |es| ==> ElementOk(es[k])
    ensures Scan(s, i, Scanner(0, false, false, None, out))
         == Some((out + RangesOf(es, i), i + |ElementsText(es)|))
    decreases |es|
  {
    hide Scan, Step, At, ElementText, ElementOk, Text;
    var e := es[0];
    var first := ElementText(e);
    ElementTextLength(e);
    var start := i + |e.before|;
    var end := i + |first|;
    var more := out + [Range(start, end)];
    var rest := RangesOf(es[1..], end + 1);
    assert out + ([Range(start, end)] + rest) == more + rest;
    AtConcat(s, i, ElementsText(es), [CLOSE_BRACKET]);
    if |es| == 1 {
      ScanTopElement(s, i, e, out);
      ScanTopClose(s, end, out, start);
      assert more + [] == more;
    } else {
      AtConcat(s, i, first + [COMMA], ElementsText(es[1..]));
      AtConcat(s, i, first, [COMMA]);
      ScanTopElement(s, i, e, out);
      ScanTopComma(s, end, out, start);
      AtConcat(s, end + 1, ElementsText(es[1..]), [CLOSE_BRACKET]);
      ScanTop(s, end + 1, es[1..], more);
    }
  }

  lemma ElementTextLength(e: Element)
    ensures |ElementText(e)| == |e.before| + |Text(e.value)| + |e.after|
  {
  }

  lemma ScanTopClose(s: seq<Byte>, i: nat, out: seq<Range>, start: nat)
    requires At(s, i, [CLOSE_BRACKET])
    ensures Scan(s, i, Scanner(0, false, false, Some(start), out)) == Some((out + [Range(start, i)], i))
  {
    assert s[i] == s[i..i + 1][0] == CLOSE_BRACKET;
  }

  lemma ScanTopComma(s: seq<Byte>, i: nat, out: seq<Range>, start: nat)
    requires At(s, i, [COMMA])
    ensures Scan(s, i, Scanner(0, false, false, Some(start), out))
         == Scan(s, i + 1, Scanner(0, false, false, None, out + [Range(start, i)]))
  {
    assert s[i] == s[i..i + 1][0] == COMMA;
  }

  lemma ScanTopElement(s: seq<Byte>, i: nat, e: Element, out: seq<Range>)
    requires At(s, i, ElementText(e)) && ElementOk(e)
    ensures Scan(s, i, Scanner(0, false, false, None, out))
         == Scan(s, i + |ElementText(e)|, Scanner(0, false, false, Some(i + |e.before|), out))
  {
    hide Scan, Step, At, Text, Pad, WellFormed;
    var top := Scanner(0, false, false, None, out);
    AtConcat(s, i, e.before + Text(e.value), e.after);
    AtConcat(s, i, e.before, Text(e.value));
    ScanPad(s, i, e.before, top);
    ScanValue(s, i + |e.before|, e.value, top);
    ScanPad(s, i + |e.before| + |Text(e.value)|, e.after, top.Begun(i + |e.before|));
  }

  lemma {:induction false} SkipPad(s: seq<Byte>, i: nat, t: seq<Byte>)
    requires At(s, i, t) && Pad(t) && i + |t| < |s| && !AsciiWhitespace(s[i + |t|])
    ensures SkipWhitespace(s, i) == i + |t|
    decreases |t|
  {
    if |t| > 0 {
      assert s[i] == t[0];
      assert s[i + 1..i + 1 + |t[1..]|] == t[1..];
      SkipPad(s, i + 1, t[1..]);
    }
  }

  /** Splitter exactness: for every well-formed array, with whitespace before it and anything after, there is
      exactly one range per element, running from its first byte to the separator that follows it. */
  lemma SplitsEveryArrayExactly(lead: seq<Byte>, pad: seq<Byte>, es: seq<Element>, trail: seq<Byte>)
    requires Pad(lead) && WellFormed(Array(pad, es))
    ensures var body := lead + Text(Array(pad, es)) + trail;
            && Split(body).Some?
            && Split(body).value.0 == RangesOf(es, |lead| + 1)
            && Split(body).value.1 == |lead| + |Text(Array(pad, es))| - 1
  {
    hide Scan, Step, At, ElementsText, Pad, ElementOk, Split, Text;
    var text := Text(Array(pad, es));
    var body := lead + text + trail;
    var inner := Inner(pad, es);
    var i := |lead| + 1;
    AtItself(lead, text, trail);
    ArrayText(pad, es);
    AtConcat(body, |lead|, [OPEN_BRACKET], inner + [CLOSE_BRACKET]);
    SplitOpens(body, lead);
    if |es| == 0 {
      AtConcat(body, i, pad, [CLOSE_BRACKET]);
      ScanPad(body, i, pad, START);
      ScanEmptyClose(body, i + |pad|);
    } else {
      ScanTop(body, i, es, []);
      assert [] + RangesOf(es, i) == RangesOf(es, i);
    }
  }

  function Inner(pad: seq<Byte>, es: seq<Element>): seq<Byte> {
    if |es| == 0 then pad else ElementsText(es)
  }

  lemma ArrayText(pad: seq<Byte>, es: seq<Element>)
    ensures Text(Array(pad, es)) == [OPEN_BRACKET] + (Inner(pad, es) + [CLOSE_BRACKET])
    ensures |Text(Array(pad, es))| == |Inner(pad, es)| + 2
  {
    hide ElementsText;
  }

  lemma SplitOpens(s: seq<Byte>, lead: seq<Byte>)
    requires At(s, 0, lead) && Pad(lead) && At(s, |lead|, [OPEN_BRACKET])
    ensures Split(s) == Scan(s, |lead| + 1, START)
  {
    AtByte(s, |lead|, OPEN_BRACKET);
    SkipPad(s, 0, lead);
    hide Scan;
  }

  lemma AtItself(lead: seq<Byte>, text: seq<Byte>, trail: seq<Byte>)
    ensures At(lead + text + trail, 0, lead) && At(lead + text + trail, |lead|, text)
  {
    var body := lead + text + trail;
    assert body[0..|lead|] == lead;
    assert body[|lead|..|lead| + |text|] == text;
  }

  lemma AtByte(s: seq<Byte>, i: nat, c: Byte)
    requires At(s, i, [c])
    ensures i < |s| && s[i] == c
  {
    assert s[i] == s[i..i + 1][0];
  }

  lemma ScanEmptyClose(s: seq<Byte>, i: nat)
    requires At(s, i, [CLOSE_BRACKET])
    ensures Scan(s, i, START) == Some(([], i))
  {
    AtByte(s, i, CLOSE_BRACKET);
  }

  /** What the ranges cut out: each element's value text with the whitespace that trails it. */
  lemma {:induction false} RangesCutElements(s: seq<Byte>, i: nat, es: seq<Element>, k: nat)
    requires k < |es| && At(s, i, ElementsText(es))
    ensures |RangesOf(es, i)| == |es|
    ensures var r := RangesOf(es, i)[k];
            r.start <= r.end <= |s| && s[r.start..r.end] == Text(es[k].value) + es[k].after
    decreases |es|
  {
    hide At, ElementText, Text;
    var e := es[0];
    var first := ElementText(e);
    ElementTextLength(e);
    RangesCount(es, i);
    if |es| > 1 {
      AtConcat(s, i, first + [COMMA], ElementsText(es[1..]));
      AtConcat(s, i, first, [COMMA]);
    }
    if k == 0 {
      ElementCut(s, i, e);
    } else {
      RangesCutElements(s, i + |first| + 1, es[1..], k - 1);
    }
  }

  lemma ElementCut(s: seq<Byte>, i: nat, e: Element)
    requires At(s, i, ElementText(e))
    ensures var start, end := i + |e.before|, i + |ElementText(e)|;
            end <= |s| && s[start..end] == Text(e.value) + e.after
  {
    hide Text;
    assert ElementText(e) == e.before + (Text(e.value) + e.after);
    AtConcat(s, i, e.before, Text(e.value) + e.after);
  }

  lemma {:induction false} RangesCount(es: seq<Element>, i: nat)
    ensures |RangesOf(es, i)| == |es|
    decreases |es|
  {
    if |es| > 0 { RangesCount(es[1..], i + |ElementText(es[0])| + 1); }
  }
}
