/** The grammar of RFC 8259, written down over texts and without the reader: which texts are JSON at
    all. The reader accepts exactly those. */
module JsonGrammar {
  import opened Sequences
  import opened Options
  import opened JsonText

  // ----- Whitespace (section 2) and numbers (section 6) -----

  predicate Blank(s: string) { forall i :: 0 <= i < |s| ==> s[i] in {' ', '\t', '\n', '\r'} }

  predicate Digits(s: string) { forall i :: 0 <= i < |s| ==> s[i] in "0123456789" }

  predicate Minus(s: string) { s == "" || s == "-" }

  predicate Whole(s: string) { s == "0" || (s != "" && Digits(s) && s[0] != '0') }

  ghost predicate Fraction(s: string) { s == "" || exists d :: s == "." + d && d != "" && Digits(d) }

  ghost predicate Exponent(s: string) { s == "" || exists e, sign, d :: IsExponentOf(s, e, sign, d) }

  predicate IsExponentOf(s: string, e: string, sign: string, d: string) {
    s == e + (sign + d) && e in {"e", "E"} && sign in {"", "+", "-"} && d != "" && Digits(d)
  }

  ghost predicate Number(s: string) {
    exists minus, whole, fraction, exponent ::
      s == minus + (whole + (fraction + exponent)) && Minus(minus) && Whole(whole) && Fraction(fraction) && Exponent(exponent)
  }

  lemma DigitIsDigit(c: char)
    ensures IsDigit(c) <==> c in "0123456789"
  {
  }

  lemma BlankIsSpace(s: string)
    ensures Blank(s) <==> AllSpace(s)
  {
  }

  /** The digits in front of a text. */
  lemma {:induction false} FrontDigits(s: string) returns (d: string)
    ensures Digits(d) && s == d + SkipDigits(s) && (d != "" <==> s != "" && IsDigit(s[0]))
    ensures SkipDigits(s) != "" ==> !IsDigit(SkipDigits(s)[0])
    ensures d != "" ==> d[0] == s[0]
  {
    if s != "" && IsDigit(s[0]) {
      var more := FrontDigits(s[1..]);
      DigitIsDigit(s[0]);
      d := s[..1] + more;
      Assoc(s[..1], more, SkipDigits(s));
      assert s == s[..1] + s[1..];
    } else {
      d := "";
      EmptyLeft(s);
    }
  }

  lemma {:induction false} SkipFront(d: string, rest: string)
    requires Digits(d) && (rest != "" ==> !IsDigit(rest[0]))
    ensures SkipDigits(d + rest) == rest && (d != "" ==> (d + rest)[0] == d[0] && IsDigit(d[0]))
  {
    if d == "" {
      EmptyLeft(rest);
    } else {
      DigitIsDigit(d[0]);
      SkipFront(d[1..], rest);
      assert (d + rest)[1..] == d[1..] + rest;
    }
  }

  lemma ExponentParts(t: string)
    requires IsExponent(t)
    ensures Exponent(t)
  {
    var signed := t[1] == '+' || t[1] == '-';
    var u := if signed then t[2..] else t[1..];
    var d := FrontDigits(u);
    EmptyRight(d);
    var e, sign := [t[0]], if signed then [t[1]] else "";
    assert t == e + (sign + u);
    assert e == "e" || e == "E";
    assert sign == "" || sign == "+" || sign == "-";
    assert IsExponentOf(t, e, sign, d);
  }

  lemma PartsAreExponent(t: string)
    requires Exponent(t) && t != ""
    ensures IsExponent(t)
  {
    var e, sign, d :| IsExponentOf(t, e, sign, d);
    EmptyRight(d);
    SkipFront(d, "");
    assert t[0] == e[0];
    if sign == "" {
      assert t[1..] == d && t[1] == d[0];
    } else {
      assert t[2..] == d && t[1] == sign[0];
    }
  }

  lemma AfterWholeParts(t: string) returns (fraction: string, exponent: string)
    requires IsAfterWhole(t)
    ensures Fraction(fraction) && Exponent(exponent) && t == fraction + exponent
  {
    if t == "" || IsExponent(t) {
      fraction, exponent := "", t;
      if t != "" { ExponentParts(t); }
    } else {
      var d := FrontDigits(t[1..]);
      fraction, exponent := "." + d, SkipDigits(t[1..]);
      Assoc(".", d, exponent);
      if exponent != "" { ExponentParts(exponent); }
    }
  }

  /** An exponent does not begin with a digit or a point. */
  lemma ExponentFirst(exponent: string)
    requires Exponent(exponent) && exponent != ""
    ensures exponent[0] == 'e' || exponent[0] == 'E'
  {
    var e, sign, d :| IsExponentOf(exponent, e, sign, d);
    assert exponent[0] == e[0];
  }

  lemma PartsAreAfterWhole(fraction: string, exponent: string)
    requires Fraction(fraction) && Exponent(exponent)
    ensures var t := fraction + exponent; IsAfterWhole(t) && (t != "" ==> !IsDigit(t[0]))
  {
    hide IsExponent, Exponent;
    var t := fraction + exponent;
    if exponent != "" {
      ExponentFirst(exponent);
      PartsAreExponent(exponent);
    }
    if fraction == "" {
      EmptyLeft(exponent);
    } else {
      var d :| fraction == "." + d && d != "" && Digits(d);
      Assoc(".", d, exponent);
      SkipFront(d, exponent);
      assert t[0] == '.' && t[1..] == d + exponent && t[1] == d[0];
    }
  }

  lemma NumberParts(tok: string)
    requires IsNumber(tok)
    ensures Number(tok)
  {
    hide IsAfterWhole, Fraction, Exponent, SkipDigits;
    var signed := tok[0] == '-';
    var minus := if signed then "-" else "";
    var t := if signed then tok[1..] else tok;
    assert tok == minus + t;
    var whole := WholePart(t);
    var fraction, exponent := AfterWholeParts(if t[0] == '0' then t[1..] else SkipDigits(t));
    assert Minus(minus);
  }

  lemma WholePart(t: string) returns (whole: string)
    requires t != "" && IsDigit(t[0])
    ensures Whole(whole) && t == whole + (if t[0] == '0' then t[1..] else SkipDigits(t))
  {
    hide SkipDigits;
    if t[0] == '0' {
      whole := "0";
    } else {
      whole := FrontDigits(t);
    }
  }

  lemma PartsAreNumber(minus: string, whole: string, fraction: string, exponent: string)
    requires Minus(minus) && Whole(whole) && Fraction(fraction) && Exponent(exponent)
    ensures IsNumber(minus + (whole + (fraction + exponent)))
  {
    hide IsAfterWhole, Fraction, Exponent, SkipDigits;
    var after := fraction + exponent;
    var t := whole + after;
    var tok := minus + t;
    PartsAreAfterWhole(fraction, exponent);
    SkipFront(whole, after);
    assert t[0] == whole[0] && (whole == "0" ==> t[1..] == after);
    assert minus == "" ==> tok == t;
    assert minus == "-" ==> tok[0] == '-' && tok[1..] == t;
  }

  lemma DigitsAreToken(d: string)
    requires Digits(d)
    ensures AllToken(d)
  {
    forall i | 0 <= i < |d| ensures IsTokenChar(d[i]) { DigitIsDigit(d[i]); }
  }

  lemma NoToken()
    ensures AllToken("") && AllToken("-") && AllToken("+") && AllToken(".") && AllToken("e") && AllToken("E")
  {
  }

  lemma TokenJoin(a: string, b: string)
    ensures AllToken(a) && AllToken(b) ==> AllToken(a + b)
  {
  }

  lemma PartsAreToken(minus: string, whole: string, fraction: string, exponent: string)
    requires Minus(minus) && Whole(whole) && Fraction(fraction) && Exponent(exponent)
    ensures AllToken(minus + (whole + (fraction + exponent)))
  {
    hide AllToken;
    NoToken();
    TokenJoin(fraction, exponent);
    TokenJoin(whole, fraction + exponent);
    TokenJoin(minus, whole + (fraction + exponent));
    DigitsAreToken(whole);
    if fraction != "" {
      var d :| fraction == "." + d && d != "" && Digits(d);
      DigitsAreToken(d);
      TokenJoin(".", d);
    }
    if exponent != "" {
      var e, sign, d :| IsExponentOf(exponent, e, sign, d);
      DigitsAreToken(d);
      TokenJoin(sign, d);
      TokenJoin(e, sign + d);
    }
  }

  /** What the reader takes for a number, `null`, `true` or `false` is exactly that. */
  lemma BareTokenIff(tok: string)
    ensures IsBareToken(tok) <==> tok in {"null", "true", "false"} || Number(tok)
  {
    hide IsNumber, Fraction, Exponent;
    if IsNumber(tok) { NumberParts(tok); }
    if Number(tok) {
      var minus, whole, fraction, exponent :|
        tok == minus + (whole + (fraction + exponent)) && Minus(minus) && Whole(whole) && Fraction(fraction) && Exponent(exponent);
      PartsAreNumber(minus, whole, fraction, exponent);
      PartsAreToken(minus, whole, fraction, exponent);
    }
  }

  // ----- Strings (section 7) -----

  /** One character between the quotes: a plain byte, one of eight short escapes, or four hex digits. */
  predicate Unit(u: string) {
    || (|u| == 1 && u[0] >= '\U{20}' && u[0] !in {'"', '\\'})
    || u in {"\\\"", "\\\\", "\\/", "\\b", "\\f", "\\n", "\\r", "\\t"}
    || (|u| == 6 && u[0] == '\\' && u[1] == 'u' && forall i :: 2 <= i < 6 ==> u[i] in "0123456789abcdefABCDEF")
  }

  ghost predicate Units(s: string)
    decreases |s|
  {
    s == "" || exists u, rest :: u != "" && s == u + rest && Unit(u) && Units(rest)
  }

  lemma ShortEscape(u: string)
    requires |u| == 2 && u[0] == '\\'
    ensures IsSimpleEscape(u[1]) <==> u in {"\\\"", "\\\\", "\\/", "\\b", "\\f", "\\n", "\\r", "\\t"}
  {
    assert u == ['\\', u[1]];
  }

  lemma HexIsHex(c: char)
    ensures IsHex(c) <==> c in "0123456789abcdefABCDEF"
  {
  }

  lemma StepIsUnit(s: string)
    requires StepLen(s) > 0
    ensures Unit(s[..StepLen(s)])
  {
    var n := StepLen(s);
    var u := s[..n];
    if s[0] == '\\' {
      if n == 2 {
        ShortEscape(u);
      } else {
        forall i | 2 <= i < 6 ensures u[i] in "0123456789abcdefABCDEF" { HexIsHex(s[i]); }
      }
    }
  }

  lemma UnitIsStep(u: string)
    requires Unit(u)
    ensures |u| > 0 && StepLen(u) == |u|
  {
    if |u| == 2 {
      ShortEscape(u);
    } else if |u| == 6 {
      HexIsHex(u[2]);
      HexIsHex(u[3]);
      HexIsHex(u[4]);
      HexIsHex(u[5]);
    }
  }

  /** What the reader takes for a string's body is exactly that. */
  lemma {:induction false} StringBodyIff(s: string)
    ensures IsStrBody(s) <==> Units(s)
    decreases |s|
  {
    hide StepLen, Unit;
    if s != "" && IsStrBody(s) {
      var n := StepLen(s);
      StepIsUnit(s);
      StringBodyIff(s[n..]);
      assert s == s[..n] + s[n..];
    }
    if s != "" && Units(s) {
      var u, rest :| u != "" && s == u + rest && Unit(u) && Units(rest);
      UnitIsStep(u);
      StepLenOf(u, rest);
      assert s[|u|..] == rest;
      StringBodyIff(rest);
    }
  }

  // ----- Values, arrays and objects (sections 3 to 5) -----

  ghost predicate ValueText(s: string)
    decreases |s|, 0
  {
    || s in {"null", "true", "false"} || Number(s)
    || (exists raw :: s == "\"" + (raw + "\"") && Units(raw))
    || (exists inner :: s == "[" + (inner + "]") && (Blank(inner) || ElemsText(inner)))
    || (exists inner :: s == "{" + (inner + "}") && (Blank(inner) || MembersText(inner)))
  }

  /** A value with whitespace around it. */
  ghost predicate Padded(s: string)
    decreases |s|, 1
  {
    exists pre, v, post :: s == pre + (v + post) && Blank(pre) && Blank(post) && ValueText(v)
  }

  /** Values with commas between them. */
  ghost predicate ElemsText(s: string)
    decreases |s|, 2
  {
    Padded(s) || exists first, more :: s == first + ("," + more) && Padded(first) && ElemsText(more)
  }

  /** A key, a colon and a value. */
  ghost predicate PairText(s: string)
    decreases |s|, 2
  {
    exists pre, key, mid, value ::
      s == pre + ("\"" + (key + ("\"" + (mid + (":" + value))))) && Blank(pre) && Units(key) && Blank(mid) && Padded(value)
  }

  ghost predicate MembersText(s: string)
    decreases |s|, 3
  {
    PairText(s) || exists first, more :: s == first + ("," + more) && PairText(first) && MembersText(more)
  }

  // ----- Every well-formed tree renders to such a text -----

  lemma BareText(tok: string)
    requires IsBareToken(tok)
    ensures ValueText(tok)
  {
    hide IsBareToken, Number;
    BareTokenIff(tok);
  }

  lemma StrText(raw: string)
    requires IsStrBody(raw)
    ensures ValueText("\"" + (raw + "\""))
  {
    hide IsStrBody, Units, Number;
    StringBodyIff(raw);
  }

  lemma ArrText(inner: string)
    requires Blank(inner) || ElemsText(inner)
    ensures ValueText("[" + (inner + "]"))
  {
    hide Blank, ElemsText, Number;
  }

  lemma ObjText(inner: string)
    requires Blank(inner) || MembersText(inner)
    ensures ValueText("{" + (inner + "}"))
  {
    hide Blank, MembersText, Number;
  }

  lemma RenderArr(gap: string, es: Elems)
    requires es.Elem? ==> gap == ""
    ensures Render(Arr(gap, es)) == "[" + ((if es.NoElem? then gap else PutElems(es, "")) + "]")
  {
    hide PutElems;
    EmptyRight("]");
    PutElemsIsRender(es, "]");
    if es.Elem? { EmptyLeft(PutElems(es, "]")); } else { NoElemsText("]"); }
  }

  lemma RenderObj(gap: string, ms: Members)
    requires ms.Member? ==> gap == ""
    ensures Render(Obj(gap, ms)) == "{" + ((if ms.NoMember? then gap else PutMembers(ms, "")) + "}")
  {
    hide PutMembers;
    EmptyRight("}");
    PutMembersIsRender(ms, "}");
    if ms.Member? { EmptyLeft(PutMembers(ms, "}")); } else { NoElemsText("}"); }
  }

  lemma NoElemsText(tail: string)
    ensures PutElems(NoElem, tail) == tail && PutMembers(NoMember, tail) == tail
  {
  }

  lemma {:induction false} RenderIsText(v: Value)
    requires WellFormed(v)
    ensures ValueText(Render(v))
    decreases v, 0
  {
    hide ValueText, ElemsText, MembersText, IsBareToken, IsStrBody;
    match v
    case Bare(tok) =>
      EmptyRight(tok);
      BareText(tok);
    case Str(raw) =>
      EmptyRight("\"");
      StrText(raw);
    case Arr(gap, elems) =>
      RenderArr(gap, elems);
      if elems.NoElem? {
        BlankIsSpace(gap);
        ArrText(gap);
      } else {
        ElemsAreText(elems);
        ArrText(PutElems(elems, ""));
      }
    case Obj(gap, members) =>
      RenderObj(gap, members);
      if members.NoMember? {
        BlankIsSpace(gap);
        ObjText(gap);
      } else {
        MembersAreText(members);
        ObjText(PutMembers(members, ""));
      }
  }

  lemma PaddedText(pre: string, v: Value, post: string)
    requires AllSpace(pre) && AllSpace(post) && ValueText(Render(v))
    ensures Padded(pre + (Render(v) + post))
  {
    hide ValueText, Blank, AllSpace;
    BlankIsSpace(pre);
    BlankIsSpace(post);
  }

  lemma MoreElems(first: string, more: string)
    requires Padded(first) && ElemsText(more)
    ensures ElemsText(first + ("," + more))
  {
    hide Padded;
  }

  lemma MoreMembers(first: string, more: string)
    requires PairText(first) && MembersText(more)
    ensures MembersText(first + ("," + more))
  {
    hide PairText;
  }

  lemma {:induction false} ElemsAreText(es: Elems)
    requires es.Elem? && WellFormedElems(es)
    ensures ElemsText(PutElems(es, ""))
    decreases es, 1
  {
    hide ValueText, Padded, AllSpace;
    RenderIsText(es.value);
    PaddedText(es.pre, es.value, es.post);
    var first := es.pre + (Render(es.value) + es.post);
    PutIsRender(es.value, es.post + PutMoreElems(es.rest, ""));
    if es.rest.NoElem? {
      EmptyRight(es.post);
    } else {
      var more := PutElems(es.rest, "");
      ElemsAreText(es.rest);
      MoreElems(first, more);
      Assoc(Render(es.value), es.post, "," + more);
      Assoc(es.pre, Render(es.value) + es.post, "," + more);
    }
  }

  /** The text of one member, without what follows it. */
  function OnePair(ms: Members): string
    requires ms.Member?
  {
    PutHead(ms, Render(ms.value) + ms.post)
  }

  lemma HeadJoin(ms: Members, a: string, b: string)
    requires ms.Member?
    ensures PutHead(ms, a + b) == PutHead(ms, a) + b
  {
    Assoc(ms.sep, a, b);
    Assoc(":", ms.sep + a, b);
    Assoc(ms.mid, ":" + (ms.sep + a), b);
    Assoc("\"", ms.mid + (":" + (ms.sep + a)), b);
    Assoc(ms.key, "\"" + (ms.mid + (":" + (ms.sep + a))), b);
    Assoc("\"", ms.key + ("\"" + (ms.mid + (":" + (ms.sep + a)))), b);
    Assoc(ms.pre, "\"" + (ms.key + ("\"" + (ms.mid + (":" + (ms.sep + a))))), b);
  }

  lemma OnePairIsText(ms: Members)
    requires ms.Member? && AllSpace(ms.pre) && IsStrBody(ms.key) && AllSpace(ms.mid) && AllSpace(ms.sep) && AllSpace(ms.post)
    requires ValueText(Render(ms.value))
    ensures PairText(OnePair(ms))
  {
    hide ValueText, Padded, AllSpace, IsStrBody, Units, Blank;
    PaddedText(ms.sep, ms.value, ms.post);
    BlankIsSpace(ms.pre);
    BlankIsSpace(ms.mid);
    StringBodyIff(ms.key);
  }

  lemma {:induction false} MembersAreText(ms: Members)
    requires ms.Member? && WellFormedMembers(ms)
    ensures MembersText(PutMembers(ms, ""))
    decreases ms, 1
  {
    hide ValueText, PairText, AllSpace, PutHead, IsStrBody;
    RenderIsText(ms.value);
    OnePairIsText(ms);
    PutIsRender(ms.value, ms.post + PutMoreMembers(ms.rest, ""));
    if ms.rest.NoMember? {
      EmptyRight(ms.post);
    } else {
      var more := PutMembers(ms.rest, "");
      MembersAreText(ms.rest);
      MoreMembers(OnePair(ms), more);
      Assoc(Render(ms.value), ms.post, "," + more);
      HeadJoin(ms, Render(ms.value) + ms.post, "," + more);
    }
  }

  // ----- Every such text is the rendering of a tree -----

  lemma {:induction false} TextHasTree(s: string) returns (v: Value)
    requires ValueText(s)
    ensures WellFormed(v) && Render(v) == s
    decreases |s|, 0
  {
    hide Number, Units, Blank, ElemsText, MembersText, IsBareToken, IsStrBody, AllSpace;
    if s in {"null", "true", "false"} || Number(s) {
      BareTokenIff(s);
      EmptyRight(s);
      v := Bare(s);
    } else if raw :| s == "\"" + (raw + "\"") && Units(raw) {
      StringBodyIff(raw);
      EmptyRight("\"");
      v := Str(raw);
    } else if inner :| s == "[" + (inner + "]") && (Blank(inner) || ElemsText(inner)) {
      v := ArrayHasTree(s, inner);
    } else {
      var inner :| s == "{" + (inner + "}") && (Blank(inner) || MembersText(inner));
      v := ObjectHasTree(s, inner);
    }
  }

  lemma NoSpace()
    ensures AllSpace("")
  {
  }

  lemma {:induction false} ArrayHasTree(s: string, inner: string) returns (v: Value)
    requires s == "[" + (inner + "]") && (Blank(inner) || ElemsText(inner))
    ensures WellFormed(v) && Render(v) == s
    decreases |inner|, 4
  {
    hide Blank, ElemsText, AllSpace, Render;
    if Blank(inner) {
      BlankIsSpace(inner);
      v := Arr(inner, NoElem);
    } else {
      var es := TextHasElems(inner);
      NoSpace();
      v := Arr("", es);
    }
    RenderArr(v.gap, v.elems);
  }

  lemma {:induction false} ObjectHasTree(s: string, inner: string) returns (v: Value)
    requires s == "{" + (inner + "}") && (Blank(inner) || MembersText(inner))
    ensures WellFormed(v) && Render(v) == s
    decreases |inner|, 4
  {
    hide Blank, MembersText, AllSpace, Render;
    if Blank(inner) {
      BlankIsSpace(inner);
      v := Obj(inner, NoMember);
    } else {
      var ms := TextHasMembers(inner);
      NoSpace();
      v := Obj("", ms);
    }
    RenderObj(v.gap, v.members);
  }

  lemma {:induction false} PaddedHasTree(s: string) returns (pre: string, v: Value, post: string)
    requires Padded(s)
    ensures AllSpace(pre) && WellFormed(v) && AllSpace(post) && s == pre + (Render(v) + post)
    decreases |s|, 1
  {
    hide Blank, AllSpace, ValueText;
    var front, text, back :| s == front + (text + back) && Blank(front) && Blank(back) && ValueText(text);
    BlankIsSpace(front);
    BlankIsSpace(back);
    pre, post := front, back;
    v := TextHasTree(text);
  }

  lemma {:induction false} TextHasElems(s: string) returns (es: Elems)
    requires ElemsText(s)
    ensures es.Elem? && WellFormedElems(es) && PutElems(es, "") == s
    decreases |s|, 2
  {
    hide Padded, AllSpace, WellFormed;
    if Padded(s) {
      var pre, v, post := PaddedHasTree(s);
      EmptyRight(post);
      PutIsRender(v, post);
      es := Elem(pre, v, post, NoElem);
    } else {
      var first, more :| s == first + ("," + more) && Padded(first) && ElemsText(more);
      var pre, v, post := PaddedHasTree(first);
      var rest := TextHasElems(more);
      PutIsRender(v, post + ("," + more));
      Assoc(Render(v), post, "," + more);
      Assoc(pre, Render(v) + post, "," + more);
      es := Elem(pre, v, post, rest);
    }
  }

  lemma {:induction false} PairHasTree(s: string) returns (m: Members)
    requires PairText(s)
    ensures m.Member? && m.rest.NoMember? && WellFormedMembers(m) && OnePair(m) == s
    decreases |s|, 2
  {
    hide Blank, Units, Padded, AllSpace, IsStrBody, WellFormed;
    var pre, key, mid, value :|
      s == pre + ("\"" + (key + ("\"" + (mid + (":" + value))))) && Blank(pre) && Units(key) && Blank(mid) && Padded(value);
    BlankIsSpace(pre);
    BlankIsSpace(mid);
    StringBodyIff(key);
    var sep, v, post := PaddedHasTree(value);
    m := Member(pre, key, mid, sep, v, post, NoMember);
  }

  lemma {:induction false} TextHasMembers(s: string) returns (ms: Members)
    requires MembersText(s)
    ensures ms.Member? && WellFormedMembers(ms) && PutMembers(ms, "") == s
    decreases |s|, 3
  {
    hide PairText, AllSpace, WellFormed, PutHead, IsStrBody;
    if PairText(s) {
      ms := PairHasTree(s);
      EmptyRight(ms.post);
      PutIsRender(ms.value, ms.post);
    } else {
      var first, more :| s == first + ("," + more) && PairText(first) && MembersText(more);
      var m := PairHasTree(first);
      var rest := TextHasMembers(more);
      ms := m.(rest := rest);
      SamePair(m, rest);
      PutIsRender(m.value, m.post + ("," + more));
      Assoc(Render(m.value), m.post, "," + more);
      HeadJoin(ms, Render(m.value) + m.post, "," + more);
    }
  }

  lemma SamePair(m: Members, rest: Members)
    requires m.Member?
    ensures OnePair(m.(rest := rest)) == OnePair(m)
  {
  }

  /** The reader accepts exactly the texts of the grammar. */
  lemma ReadsExactlyJson(s: string)
    ensures ParseDoc(s).Some? <==> Padded(s)
  {
    hide Padded, ParseDoc, WellFormed, AllSpace, ValueText;
    if ParseDoc(s).Some? {
      ParseSound(s);
      var d := ParseDoc(s).value;
      RenderIsText(d.root);
      PaddedText(d.lead, d.root, d.trail);
      PutIsRender(d.root, d.trail);
    }
    if Padded(s) {
      var pre, v, post := PaddedHasTree(s);
      PutIsRender(v, post);
      ParseComplete(Doc(pre, v, post));
    }
  }
}
