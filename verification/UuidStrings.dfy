/** Every backslash of a JSON value stands inside one of its strings: a key or a string value. That
    string can be replaced by any other, and text that does not close as a string breaks the value. */
module UuidStrings {
  import opened Sequences
  import opened JsonText

  /** A text with the string `raw` between `pre` and `post`. */
  function Fill(pre: string, raw: string, post: string): string { pre + ("\"" + (raw + ("\"" + post))) }

  /** A text whose last string is opened before `text`. */
  function Open(pre: string, text: string): string { pre + ("\"" + text) }

  lemma FillAfter(x: string, pre: string, raw: string, post: string)
    ensures x + Fill(pre, raw, post) == Fill(x + pre, raw, post)
  {
    Assoc(x, pre, "\"" + (raw + ("\"" + post)));
  }

  lemma FillBefore(pre: string, raw: string, post: string, t: string)
    ensures Fill(pre, raw, post) + t == Fill(pre, raw, post + t)
  {
    Assoc("\"", post, t);
    Assoc(raw, "\"" + post, t);
    Assoc("\"", raw + ("\"" + post), t);
    Assoc(pre, "\"" + (raw + ("\"" + post)), t);
  }

  lemma OpenAfter(x: string, pre: string, text: string)
    ensures x + Open(pre, text) == Open(x + pre, text)
  {
    Assoc(x, pre, "\"" + text);
  }

  ghost predicate IsText(t: string) { exists v :: WellFormed(v) && Render(v) == t }

  ghost predicate IsElemsText(t: string) { exists es: Elems :: es.Elem? && WellFormedElems(es) && PutElems(es, "") == t }

  ghost predicate IsMembersText(t: string) { exists ms: Members :: ms.Member? && WellFormedMembers(ms) && PutMembers(ms, "") == t }

  /** The front of a value: it cannot be taken for whitespace or the end of a container. */
  predicate Starts(pre: string) { pre == "" || (!IsSpace(pre[0]) && pre[0] != ']' && pre[0] != '}') }

  /** The value's text has the string between `pre` and `post`; any other string there is a value too,
      and text that is no string there is none. */
  ghost predicate HoleIn(v: Value, pre: string, raw: string, post: string) {
    && IsStrBody(raw) && Render(v) == Fill(pre, raw, post) && Starts(pre)
    && (forall other :: IsStrBody(other) ==> IsText(Fill(pre, other, post)))
    && (forall text :: ReadStr(text).None? ==> ReadValue(Open(pre, text)).None?)
  }

  ghost predicate HoleInElems(es: Elems, pre: string, raw: string, post: string) {
    && IsStrBody(raw) && PutElems(es, "") == Fill(pre, raw, post)
    && (forall other :: IsStrBody(other) ==> IsElemsText(Fill(pre, other, post)))
    && (forall text :: ReadStr(text).None? ==> ReadElems(Open(pre, text)).None? && NotClosed(Open(pre, text), ']'))
  }

  ghost predicate HoleInMembers(ms: Members, pre: string, raw: string, post: string) {
    && IsStrBody(raw) && PutMembers(ms, "") == Fill(pre, raw, post)
    && (forall other :: IsStrBody(other) ==> IsMembersText(Fill(pre, other, post)))
    && (forall text :: ReadStr(text).None? ==> ReadMembers(Open(pre, text)).None? && NotClosed(Open(pre, text), '}'))
  }

  /** Something other than the closing byte comes first. */
  predicate NotClosed(s: string, close: char) { SplitSpace(s).1 != "" && SplitSpace(s).1[0] != close }

  // ----- A string value -----

  lemma HoleHere(raw: string)
    requires IsStrBody(raw)
    ensures HoleIn(Str(raw), "", raw, "")
  {
    hide IsStrBody, ReadStr;
    forall other: string ensures Render(Str(other)) == Fill("", other, "") { EmptyLeft("\"" + (other + ("\"" + ""))); }
    forall other | IsStrBody(other) ensures IsText(Fill("", other, "")) { assert WellFormed(Str(other)); }
    forall text | ReadStr(text).None? ensures ReadValue(Open("", text)).None? {
      EmptyLeft("\"" + text);
      assert ("\"" + text)[1..] == text;
    }
  }

  // ----- Arrays -----

  /** What follows the first element. */
  function ElemsAfter(es: Elems): string
    requires es.Elem?
  {
    es.post + PutMoreElems(es.rest, "")
  }

  lemma ElemsText(es: Elems, v: Value)
    requires es.Elem?
    ensures PutElems(es.(value := v), "") == es.pre + (Render(v) + ElemsAfter(es))
  {
    hide Put;
    PutIsRender(v, ElemsAfter(es));
  }

  /** A value's front still starts one when a string is opened behind it. */
  lemma OpenStarts(pre: string, text: string)
    requires Starts(pre)
    ensures Open(pre, text) != "" && !IsSpace(Open(pre, text)[0]) && Open(pre, text)[0] != ']' && Open(pre, text)[0] != '}'
  {
    assert Open(pre, text)[0] == if pre == "" then '"' else pre[0];
  }

  lemma HoleInFirst(es: Elems, pre: string, raw: string, post: string)
    requires es.Elem? && WellFormedElems(es) && HoleIn(es.value, pre, raw, post)
    ensures HoleInElems(es, es.pre + pre, raw, post + ElemsAfter(es))
  {
    hide IsStrBody, ReadStr, ReadValue, Render, Fill, Open, WellFormed, ElemsAfter, PutElems, Starts;
    assert es.(value := es.value) == es;
    ElemsText(es, es.value);
    FilledElems(es.pre, pre, raw, post, ElemsAfter(es));
    forall other | IsStrBody(other) ensures IsElemsText(Fill(es.pre + pre, other, post + ElemsAfter(es))) {
      var v :| WellFormed(v) && Render(v) == Fill(pre, other, post);
      ElemsText(es, v);
      FilledElems(es.pre, pre, other, post, ElemsAfter(es));
      ReplacedElem(es, v);
    }
    forall text | ReadStr(text).None?
      ensures ReadElems(Open(es.pre + pre, text)).None? && NotClosed(Open(es.pre + pre, text), ']')
    {
      OpenAfter(es.pre, pre, text);
      OpenStarts(pre, text);
      BrokenFirst(es.pre, Open(pre, text));
    }
  }

  lemma FilledElems(x: string, pre: string, raw: string, post: string, after: string)
    ensures x + (Fill(pre, raw, post) + after) == Fill(x + pre, raw, post + after)
  {
    FillBefore(pre, raw, post, after);
    FillAfter(x, pre, raw, post + after);
  }

  lemma ReplacedElem(es: Elems, v: Value)
    requires es.Elem? && WellFormedElems(es) && WellFormed(v)
    ensures IsElemsText(PutElems(es.(value := v), ""))
  {
    assert WellFormedElems(es.(value := v));
  }

  lemma BrokenFirst(pre: string, text: string)
    requires AllSpace(pre) && text != "" && !IsSpace(text[0]) && text[0] != ']' && ReadValue(text).None?
    ensures ReadElems(pre + text).None? && NotClosed(pre + text, ']')
  {
    hide ReadValue, SplitSpace;
    SplitSpaceOf(pre, text);
  }

  /** The bytes of the first element and the comma behind it. */
  function ElemFront(es: Elems): string
    requires es.Elem?
  {
    es.pre + (Render(es.value) + (es.post + ","))
  }

  lemma ElemsFrontText(es: Elems, rest: Elems)
    requires es.Elem? && rest.Elem?
    ensures PutElems(es.(rest := rest), "") == ElemFront(es) + PutElems(rest, "")
  {
    hide Put, PutElems;
    var t := PutElems(rest, "");
    ElemsUnfold(es, rest);
    PutIsRender(es.value, es.post + ("," + t));
    Assoc(es.post, ",", t);
    Assoc(Render(es.value), es.post + ",", t);
    Assoc(es.pre, Render(es.value) + (es.post + ","), t);
  }

  lemma ElemsUnfold(es: Elems, rest: Elems)
    requires es.Elem? && rest.Elem?
    ensures PutElems(es.(rest := rest), "") == es.pre + Put(es.value, es.post + ("," + PutElems(rest, "")))
  {
    hide Put;
  }

  lemma BrokenRest(es: Elems, text: string)
    requires es.Elem? && WellFormedElems(es) && ReadElems(text).None?
    ensures ReadElems(ElemFront(es) + text).None? && NotClosed(ElemFront(es) + text, ']')
  {
    hide ReadValue, SplitSpace, Put, WellFormed;
    var t := "," + text;
    var r := es.post + t;
    Assoc(es.pre, Render(es.value) + (es.post + ","), text);
    Assoc(Render(es.value), es.post + ",", text);
    Assoc(es.post, ",", text);
    PutIsRender(es.value, r);
    PutFirst(es.value, r);
    SplitSpaceOf(es.pre, Put(es.value, r));
    assert r[0] == (if es.post == "" then ',' else es.post[0]);
    ReadValueComplete(es.value, r);
    SplitSpaceOf(es.post, t);
    assert t[1..] == text;
  }

  lemma HoleInRest(es: Elems, pre: string, raw: string, post: string)
    requires es.Elem? && es.rest.Elem? && WellFormedElems(es) && HoleInElems(es.rest, pre, raw, post)
    ensures HoleInElems(es, ElemFront(es) + pre, raw, post)
  {
    hide IsStrBody, ReadStr, ReadElems, Fill, Open, PutElems, ElemFront, NotClosed;
    assert es.(rest := es.rest) == es;
    ElemsFrontText(es, es.rest);
    FillAfter(ElemFront(es), pre, raw, post);
    forall other | IsStrBody(other) ensures IsElemsText(Fill(ElemFront(es) + pre, other, post)) {
      var rest: Elems :| rest.Elem? && WellFormedElems(rest) && PutElems(rest, "") == Fill(pre, other, post);
      ElemsFrontText(es, rest);
      FillAfter(ElemFront(es), pre, other, post);
      assert WellFormedElems(es.(rest := rest));
    }
    forall text | ReadStr(text).None?
      ensures ReadElems(Open(ElemFront(es) + pre, text)).None? && NotClosed(Open(ElemFront(es) + pre, text), ']')
    {
      OpenAfter(ElemFront(es), pre, text);
      BrokenRest(es, Open(pre, text));
    }
  }

  lemma ArrText(es: Elems)
    ensures Render(Arr("", es)) == "[" + (PutElems(es, "") + "]")
  {
    hide PutElems;
    PutElemsIsRender(es, "]" + "");
    EmptyLeft(PutElems(es, "]" + ""));
    assert "]" + "" == "]";
  }

  lemma BrokenArr(text: string)
    requires ReadElems(text).None? && NotClosed(text, ']')
    ensures ReadValue("[" + text).None?
  {
    hide ReadElems, SplitSpace;
    assert ("[" + text)[1..] == text && ReadArr(text).None?;
  }

  lemma HoleInArr(es: Elems, pre: string, raw: string, post: string)
    requires es.Elem? && WellFormedElems(es) && HoleInElems(es, pre, raw, post)
    ensures HoleIn(Arr("", es), "[" + pre, raw, post + "]")
  {
    hide IsStrBody, ReadStr, ReadElems, ReadValue, Fill, Open, PutElems, Render, NotClosed;
    ArrText(es);
    FilledElems("[", pre, raw, post, "]");
    forall other | IsStrBody(other) ensures IsText(Fill("[" + pre, other, post + "]")) {
      var es': Elems :| es'.Elem? && WellFormedElems(es') && PutElems(es', "") == Fill(pre, other, post);
      ArrText(es');
      FilledElems("[", pre, other, post, "]");
      assert WellFormed(Arr("", es'));
    }
    forall text | ReadStr(text).None? ensures ReadValue(Open("[" + pre, text)).None? {
      OpenAfter("[", pre, text);
      BrokenArr(Open(pre, text));
    }
  }

  // ----- Objects -----

  function MembersAfter(ms: Members): string
    requires ms.Member?
  {
    ms.post + PutMoreMembers(ms.rest, "")
  }

  function HeadText(ms: Members): string
    requires ms.Member?
  {
    PutHead(ms, "")
  }

  lemma HeadIsText(ms: Members, t: string)
    requires ms.Member?
    ensures PutHead(ms, t) == HeadText(ms) + t
  {
    hide PutHead;
    PutHeadIsText(ms, "", t);
    EmptyLeft(t);
  }

  lemma MembersText(ms: Members, v: Value)
    requires ms.Member?
    ensures PutMembers(ms.(value := v), "") == HeadText(ms) + (Render(v) + MembersAfter(ms))
  {
    MembersUnfold(ms, v);
    hide Put, PutHead, HeadText, PutMembers;
    PutIsRender(v, MembersAfter(ms));
    HeadIsText(ms, Put(v, MembersAfter(ms)));
  }

  lemma MembersUnfold(ms: Members, v: Value)
    requires ms.Member?
    ensures PutMembers(ms.(value := v), "") == PutHead(ms, Put(v, MembersAfter(ms)))
  {
    hide Put;
  }

  /** What follows a key, from its closing quote on. */
  function KeyAfter(ms: Members): string
    requires ms.Member?
  {
    ms.mid + (":" + (ms.sep + Put(ms.value, MembersAfter(ms))))
  }

  lemma KeyText(ms: Members, key: string)
    requires ms.Member?
    ensures PutMembers(ms.(key := key), "") == Fill(ms.pre, key, KeyAfter(ms))
  {
    hide Put;
  }

  lemma ReplacedMembers(ms: Members)
    requires ms.Member? && WellFormedMembers(ms)
    ensures IsMembersText(PutMembers(ms, ""))
  {
  }

  lemma NewKey(ms: Members, key: string)
    requires ms.Member? && WellFormedMembers(ms) && IsStrBody(key)
    ensures WellFormedMembers(ms.(key := key))
  {
  }

  lemma NewField(ms: Members, v: Value)
    requires ms.Member? && WellFormedMembers(ms) && WellFormed(v)
    ensures WellFormedMembers(ms.(value := v))
  {
  }

  lemma NewRest(ms: Members, rest: Members)
    requires ms.Member? && WellFormedMembers(ms) && WellFormedMembers(rest)
    ensures WellFormedMembers(ms.(rest := rest))
  {
  }

  lemma MemberParts(ms: Members)
    requires ms.Member? && WellFormedMembers(ms)
    ensures AllSpace(ms.pre) && IsStrBody(ms.key) && WellFormed(ms.value)
  {
  }

  /** The string is the first member's key. */
  lemma HoleInKey(ms: Members)
    requires ms.Member? && WellFormedMembers(ms)
    ensures HoleInMembers(ms, ms.pre, ms.key, KeyAfter(ms))
  {
    hide IsStrBody, ReadStr, ReadMembers, Fill, Open, PutMembers, KeyAfter, WellFormed, WellFormedMembers, IsMembersText, NotClosed, AllSpace;
    assert ms.(key := ms.key) == ms;
    MemberParts(ms);
    KeyText(ms, ms.key);
    forall other | IsStrBody(other) ensures IsMembersText(Fill(ms.pre, other, KeyAfter(ms))) {
      KeyText(ms, other);
      NewKey(ms, other);
      ReplacedMembers(ms.(key := other));
    }
    forall text | ReadStr(text).None?
      ensures ReadMembers(Open(ms.pre, text)).None? && NotClosed(Open(ms.pre, text), '}')
    {
      BrokenKey(ms.pre, text);
    }
  }

  lemma BrokenKey(pre: string, text: string)
    requires AllSpace(pre) && ReadStr(text).None?
    ensures ReadMembers(Open(pre, text)).None? && NotClosed(Open(pre, text), '}')
  {
    hide ReadStr, SplitSpace;
    SplitSpaceOf(pre, "\"" + text);
    assert ("\"" + text)[1..] == text;
    assert ReadHead(Open(pre, text)).None?;
  }

  lemma BrokenField(ms: Members, text: string)
    requires ms.Member? && WellFormedMembers(ms) && text != "" && !IsSpace(text[0]) && ReadValue(text).None?
    ensures ReadMembers(HeadText(ms) + text).None? && NotClosed(HeadText(ms) + text, '}')
  {
    hide ReadHead, ReadValue, SplitSpace, PutHead, WellFormed, IsStrBody, HeadText;
    HeadIsText(ms, text);
    ReadHeadComplete(ms, text);
  }

  lemma FieldFills(ms: Members, pre: string, other: string, post: string)
    requires ms.Member? && WellFormedMembers(ms) && IsText(Fill(pre, other, post))
    ensures IsMembersText(Fill(HeadText(ms) + pre, other, post + MembersAfter(ms)))
  {
    hide Render, Fill, WellFormed, MembersAfter, PutMembers, HeadText, WellFormedMembers, IsMembersText;
    var v :| WellFormed(v) && Render(v) == Fill(pre, other, post);
    MembersText(ms, v);
    FilledElems(HeadText(ms), pre, other, post, MembersAfter(ms));
    NewField(ms, v);
    ReplacedMembers(ms.(value := v));
  }

  lemma HoleInField(ms: Members, pre: string, raw: string, post: string)
    requires ms.Member? && WellFormedMembers(ms) && HoleIn(ms.value, pre, raw, post)
    ensures HoleInMembers(ms, HeadText(ms) + pre, raw, post + MembersAfter(ms))
  {
    hide IsStrBody, ReadStr, ReadValue, ReadMembers, Render, Fill, Open, WellFormed, MembersAfter, PutMembers, Starts, HeadText, NotClosed,
         WellFormedMembers, IsMembersText, IsText;
    var x, after := HeadText(ms), MembersAfter(ms);
    assert ms.(value := ms.value) == ms;
    MembersText(ms, ms.value);
    FilledElems(x, pre, raw, post, after);
    forall other | IsStrBody(other) ensures IsMembersText(Fill(x + pre, other, post + after)) { FieldFills(ms, pre, other, post); }
    forall text | ReadStr(text).None? ensures ReadMembers(Open(x + pre, text)).None? && NotClosed(Open(x + pre, text), '}') {
      OpenAfter(x, pre, text);
      OpenStarts(pre, text);
      BrokenField(ms, Open(pre, text));
    }
  }

  /** The bytes of the first member and the comma behind it. */
  function MemberFront(ms: Members): string
    requires ms.Member?
  {
    HeadText(ms) + (Render(ms.value) + (ms.post + ","))
  }

  lemma MembersFrontText(ms: Members, rest: Members)
    requires ms.Member? && rest.Member?
    ensures PutMembers(ms.(rest := rest), "") == MemberFront(ms) + PutMembers(rest, "")
  {
    MembersRestUnfold(ms, rest);
    hide Put, PutMembers, PutHead, HeadText;
    var t := PutMembers(rest, "");
    HeadIsText(ms, Put(ms.value, ms.post + ("," + t)));
    PutIsRender(ms.value, ms.post + ("," + t));
    Assoc(ms.post, ",", t);
    Assoc(Render(ms.value), ms.post + ",", t);
    Assoc(HeadText(ms), Render(ms.value) + (ms.post + ","), t);
  }

  lemma MembersRestUnfold(ms: Members, rest: Members)
    requires ms.Member? && rest.Member?
    ensures PutMembers(ms.(rest := rest), "") == PutHead(ms, Put(ms.value, ms.post + ("," + PutMembers(rest, ""))))
  {
    hide Put;
  }

  lemma BrokenLater(ms: Members, text: string)
    requires ms.Member? && WellFormedMembers(ms) && ReadMembers(text).None?
    ensures ReadMembers(MemberFront(ms) + text).None? && NotClosed(MemberFront(ms) + text, '}')
  {
    hide ReadHead, ReadValue, SplitSpace, Put, PutHead, WellFormed, IsStrBody, HeadText;
    var t := "," + text;
    var r := ms.post + t;
    Assoc(HeadText(ms), Render(ms.value) + (ms.post + ","), text);
    Assoc(Render(ms.value), ms.post + ",", text);
    Assoc(ms.post, ",", text);
    PutIsRender(ms.value, r);
    HeadIsText(ms, Put(ms.value, r));
    PutFirst(ms.value, r);
    ReadHeadComplete(ms, Put(ms.value, r));
    assert r[0] == (if ms.post == "" then ',' else ms.post[0]);
    ReadValueComplete(ms.value, r);
    SplitSpaceOf(ms.post, t);
    assert t[1..] == text;
  }

  lemma LaterFills(ms: Members, pre: string, other: string, post: string)
    requires ms.Member? && WellFormedMembers(ms) && IsMembersText(Fill(pre, other, post))
    ensures IsMembersText(Fill(MemberFront(ms) + pre, other, post))
  {
    hide Fill, PutMembers, MemberFront, WellFormedMembers;
    var rest: Members :| rest.Member? && WellFormedMembers(rest) && PutMembers(rest, "") == Fill(pre, other, post);
    MembersFrontText(ms, rest);
    FillAfter(MemberFront(ms), pre, other, post);
    NewRest(ms, rest);
    ReplacedMembers(ms.(rest := rest));
  }

  lemma HoleInLater(ms: Members, pre: string, raw: string, post: string)
    requires ms.Member? && ms.rest.Member? && WellFormedMembers(ms) && HoleInMembers(ms.rest, pre, raw, post)
    ensures HoleInMembers(ms, MemberFront(ms) + pre, raw, post)
  {
    hide IsStrBody, ReadStr, ReadMembers, Fill, Open, PutMembers, MemberFront, NotClosed, WellFormedMembers, IsMembersText;
    assert ms.(rest := ms.rest) == ms;
    MembersFrontText(ms, ms.rest);
    FillAfter(MemberFront(ms), pre, raw, post);
    forall other | IsStrBody(other) ensures IsMembersText(Fill(MemberFront(ms) + pre, other, post)) { LaterFills(ms, pre, other, post); }
    forall text | ReadStr(text).None?
      ensures ReadMembers(Open(MemberFront(ms) + pre, text)).None? && NotClosed(Open(MemberFront(ms) + pre, text), '}')
    {
      OpenAfter(MemberFront(ms), pre, text);
      BrokenLater(ms, Open(pre, text));
    }
  }

  lemma ObjText(ms: Members)
    ensures Render(Obj("", ms)) == "{" + (PutMembers(ms, "") + "}")
  {
    hide PutMembers;
    PutMembersIsRender(ms, "}" + "");
    EmptyLeft(PutMembers(ms, "}" + ""));
    assert "}" + "" == "}";
  }

  lemma BrokenObj(text: string)
    requires ReadMembers(text).None? && NotClosed(text, '}')
    ensures ReadValue("{" + text).None?
  {
    hide ReadMembers, SplitSpace;
    assert ("{" + text)[1..] == text && ReadObj(text).None?;
  }

  lemma ReplacedObj(ms: Members)
    requires ms.Member? && WellFormedMembers(ms)
    ensures IsText(Render(Obj("", ms)))
  {
    assert WellFormed(Obj("", ms));
  }

  lemma HoleInObj(ms: Members, pre: string, raw: string, post: string)
    requires ms.Member? && WellFormedMembers(ms) && HoleInMembers(ms, pre, raw, post)
    ensures HoleIn(Obj("", ms), "{" + pre, raw, post + "}")
  {
    hide IsStrBody, ReadStr, ReadMembers, ReadValue, Fill, Open, PutMembers, Render, NotClosed, WellFormedMembers;
    ObjText(ms);
    FilledElems("{", pre, raw, post, "}");
    forall other | IsStrBody(other) ensures IsText(Fill("{" + pre, other, post + "}")) {
      var ms': Members :| ms'.Member? && WellFormedMembers(ms') && PutMembers(ms', "") == Fill(pre, other, post);
      ObjText(ms');
      FilledElems("{", pre, other, post, "}");
      ReplacedObj(ms');
    }
    forall text | ReadStr(text).None? ensures ReadValue(Open("{" + pre, text)).None? {
      OpenAfter("{", pre, text);
      BrokenObj(Open(pre, text));
    }
  }

  // ----- Finding the string around a backslash -----

  lemma SpaceHasNone(s: string)
    requires AllSpace(s)
    ensures '\\' !in s
  {
  }

  /** The offset lies inside the string. */
  predicate Inside(q: int, pre: string, raw: string) { |pre| < q <= |pre| + |raw| }

  /** Whitespace, tokens and empty containers have no backslash. */
  lemma BareHasNone(tok: string)
    requires IsBareToken(tok)
    ensures '\\' !in Render(Bare(tok))
  {
    EmptyRight(tok);
    forall i | 0 <= i < |tok| ensures tok[i] != '\\' { assert IsTokenChar(tok[i]); }
  }

  lemma EmptyHasNone(gap: string)
    requires AllSpace(gap)
    ensures '\\' !in Render(Arr(gap, NoElem)) && '\\' !in Render(Obj(gap, NoMember))
  {
    assert "]" + "" == "]" && "}" + "" == "}";
    assert Put(Arr(gap, NoElem), "") == "[" + (gap + ("]" + ""));
    assert Put(Obj(gap, NoMember), "") == "{" + (gap + ("}" + ""));
    SpaceHasNone(gap);
  }

  lemma InsideString(raw: string, q: int)
    requires 0 <= q < |Render(Str(raw))| && Render(Str(raw))[q] == '\\'
    ensures Inside(q, "", raw)
  {
    Passed("\"", raw + ("\"" + ""), q);
    NotBehind(raw, "\"" + "", q - 1);
  }

  lemma {:induction false} FindString(v: Value, q: int) returns (pre: string, raw: string, post: string)
    requires WellFormed(v) && 0 <= q < |Render(v)| && Render(v)[q] == '\\'
    ensures HoleIn(v, pre, raw, post) && Inside(q, pre, raw)
    decreases v, 0
  {
    pre, raw, post := "", "", "";
    assert '\\' in Render(v);
    hide HoleIn, HoleInElems, HoleInMembers, PutElems, PutMembers, IsBareToken, WellFormedElems, WellFormedMembers, AllSpace, IsStrBody, Render;
    match v {
      case Bare(tok) => BareHasNone(tok);
      case Str(r) =>
        raw := r;
        HoleHere(r);
        InsideString(r, q);
      case Arr(gap, elems) =>
        if elems.NoElem? {
          EmptyHasNone(gap);
        } else {
          pre, raw, post := FindInArr(elems, q);
        }
      case Obj(gap, members) =>
        if members.NoMember? {
          EmptyHasNone(gap);
        } else {
          pre, raw, post := FindInObj(members, q);
        }
    }
  }

  lemma {:induction false} FindInArr(es: Elems, q: int) returns (pre: string, raw: string, post: string)
    requires es.Elem? && WellFormedElems(es) && 0 <= q < |Render(Arr("", es))| && Render(Arr("", es))[q] == '\\'
    ensures HoleIn(Arr("", es), pre, raw, post) && Inside(q, pre, raw)
    decreases es, 1
  {
    hide HoleIn, HoleInElems, PutElems, Render;
    ArrText(es);
    Wrapped("[", PutElems(es, ""), "]", q);
    var p, r, s := FindInElems(es, q - 1);
    HoleInArr(es, p, r, s);
    pre, raw, post := "[" + p, r, s + "]";
  }

  lemma {:induction false} FindInObj(ms: Members, q: int) returns (pre: string, raw: string, post: string)
    requires ms.Member? && WellFormedMembers(ms) && 0 <= q < |Render(Obj("", ms))| && Render(Obj("", ms))[q] == '\\'
    ensures HoleIn(Obj("", ms), pre, raw, post) && Inside(q, pre, raw)
    decreases ms, 1
  {
    hide HoleIn, HoleInMembers, PutMembers, Render;
    ObjText(ms);
    Wrapped("{", PutMembers(ms, ""), "}", q);
    var p, r, s := FindInMembers(ms, q - 1);
    HoleInObj(ms, p, r, s);
    pre, raw, post := "{" + p, r, s + "}";
  }

  /** A backslash between brackets is between the brackets. */
  lemma Wrapped(open: string, t: string, close: string, q: int)
    requires |open| == 1 && |close| == 1 && open[0] != '\\' && close[0] != '\\'
    requires 0 <= q < |open + (t + close)| && (open + (t + close))[q] == '\\'
    ensures 0 < q <= |t| && t[q - 1] == '\\'
  {
  }

  /** A backslash behind a part without one. */
  lemma Passed(x: string, t: string, q: int)
    requires '\\' !in x && 0 <= q < |x + t| && (x + t)[q] == '\\'
    ensures |x| <= q && t[q - |x|] == '\\'
  {
  }

  /** Behind the first value there is only the rest of the list. */
  lemma AfterElem(es: Elems, q: int)
    requires es.Elem? && AllSpace(es.post) && 0 <= q < |ElemsAfter(es)| && ElemsAfter(es)[q] == '\\'
    ensures es.rest.Elem? && q > |es.post| && q - |es.post| - 1 < |PutElems(es.rest, "")|
    ensures PutElems(es.rest, "")[q - |es.post| - 1] == '\\'
  {
    hide PutElems;
    SpaceHasNone(es.post);
    Passed(es.post, PutMoreElems(es.rest, ""), q);
    if es.rest.Elem? { Passed(",", PutElems(es.rest, ""), q - |es.post|); }
  }

  lemma {:induction false} FindInElems(es: Elems, q: int) returns (pre: string, raw: string, post: string)
    requires es.Elem? && WellFormedElems(es) && 0 <= q < |PutElems(es, "")| && PutElems(es, "")[q] == '\\'
    ensures HoleInElems(es, pre, raw, post) && Inside(q, pre, raw)
    decreases es, 0
  {
    hide HoleIn, HoleInElems, PutElems, Render, ElemsAfter, WellFormed;
    assert es.(value := es.value) == es;
    ElemsText(es, es.value);
    SpaceHasNone(es.pre);
    var t := Render(es.value) + ElemsAfter(es);
    Passed(es.pre, t, q);
    var i := q - |es.pre|;
    if i < |Render(es.value)| {
      assert t[i] == Render(es.value)[i];
      var p, r, s := FindString(es.value, i);
      HoleInFirst(es, p, r, s);
      pre, raw, post := es.pre + p, r, s + ElemsAfter(es);
    } else {
      assert t[i] == ElemsAfter(es)[i - |Render(es.value)|];
      AfterElem(es, i - |Render(es.value)|);
      FrontLength(es);
      var p, r, s := FindInElems(es.rest, q - |ElemFront(es)|);
      HoleInRest(es, p, r, s);
      pre, raw, post := ElemFront(es) + p, r, s;
    }
  }

  lemma FrontLength(es: Elems)
    requires es.Elem?
    ensures |ElemFront(es)| == |es.pre| + |Render(es.value)| + |es.post| + 1
  {
  }

  lemma AfterMember(ms: Members, q: int)
    requires ms.Member? && AllSpace(ms.post) && 0 <= q < |MembersAfter(ms)| && MembersAfter(ms)[q] == '\\'
    ensures ms.rest.Member? && q > |ms.post| && q - |ms.post| - 1 < |PutMembers(ms.rest, "")|
    ensures PutMembers(ms.rest, "")[q - |ms.post| - 1] == '\\'
  {
    hide PutMembers;
    SpaceHasNone(ms.post);
    Passed(ms.post, PutMoreMembers(ms.rest, ""), q);
    if ms.rest.Member? { Passed(",", PutMembers(ms.rest, ""), q - |ms.post|); }
  }

  /** A backslash in a member's head is in its key. */
  lemma InHead(ms: Members, q: int)
    requires ms.Member? && AllSpace(ms.pre) && AllSpace(ms.mid) && AllSpace(ms.sep)
    requires 0 <= q < |HeadText(ms)| && HeadText(ms)[q] == '\\'
    ensures Inside(q, ms.pre, ms.key)
  {
    var s4 := ":" + (ms.sep + "");
    var s3 := ms.mid + s4;
    var s2 := "\"" + s3;
    SpaceHasNone(ms.pre);
    Passed(ms.pre, "\"" + (ms.key + s2), q);
    Passed("\"", ms.key + s2, q - |ms.pre|);
    TailHasNone(ms.mid, ms.sep);
    NotBehind(ms.key, s2, q - |ms.pre| - 1);
  }

  lemma NotBehind(x: string, t: string, q: int)
    requires '\\' !in t && 0 <= q < |x + t| && (x + t)[q] == '\\'
    ensures q < |x|
  {
  }

  lemma TailHasNone(mid: string, sep: string)
    requires AllSpace(mid) && AllSpace(sep)
    ensures '\\' !in "\"" + (mid + (":" + (sep + "")))
  {
    SpaceHasNone(mid);
    SpaceHasNone(sep);
    EmptyRight(sep);
  }

  lemma MemberFrontLength(ms: Members)
    requires ms.Member?
    ensures |MemberFront(ms)| == |HeadText(ms)| + |Render(ms.value)| + |ms.post| + 1
  {
  }

  lemma {:induction false} FindInMembers(ms: Members, q: int) returns (pre: string, raw: string, post: string)
    requires ms.Member? && WellFormedMembers(ms) && 0 <= q < |PutMembers(ms, "")| && PutMembers(ms, "")[q] == '\\'
    ensures HoleInMembers(ms, pre, raw, post) && Inside(q, pre, raw)
    decreases ms, 0
  {
    hide HoleIn, HoleInMembers, PutMembers, Render, MembersAfter, WellFormed, HeadText, IsStrBody;
    assert ms.(value := ms.value) == ms;
    MembersText(ms, ms.value);
    var t := Render(ms.value) + MembersAfter(ms);
    var i := q - |HeadText(ms)|;
    if i < 0 {
      assert (HeadText(ms) + t)[q] == HeadText(ms)[q];
      InHead(ms, q);
      HoleInKey(ms);
      pre, raw, post := ms.pre, ms.key, KeyAfter(ms);
    } else if i < |Render(ms.value)| {
      assert (HeadText(ms) + t)[q] == t[i] == Render(ms.value)[i];
      var p, r, s := FindString(ms.value, i);
      HoleInField(ms, p, r, s);
      pre, raw, post := HeadText(ms) + p, r, s + MembersAfter(ms);
    } else {
      assert (HeadText(ms) + t)[q] == t[i] == MembersAfter(ms)[i - |Render(ms.value)|];
      AfterMember(ms, i - |Render(ms.value)|);
      MemberFrontLength(ms);
      var p, r, s := FindInMembers(ms.rest, q - |MemberFront(ms)|);
      HoleInLater(ms, p, r, s);
      pre, raw, post := MemberFront(ms) + p, r, s;
    }
  }
}
