/** The spliced body means what the tree walk makes of the body, and the walk queues nothing
    exactly when the tree walk changes nothing. */
module CacheTtlMeaning {
  import opened JsonText
  import opened JsonTree
  import opened CacheTtl

  // ----- The edited tree is well formed -----

  lemma {:induction false} EditedWellFormed(p: Place, v: Value)
    requires WellFormed(v)
    ensures WellFormed(Edited(p, v))
    decreases v
  {
    match v
    case Arr(gap, elems) =>
      if ElemPlace(p).Some? { EditedElemsWellFormed(ElemPlace(p).value, elems); }
    case Obj(gap, members) =>
      if p.Breakpoint? { BreakpointWellFormed(gap, members); } else { EditedMembersWellFormed(p, members); }
    case _ =>
  }

  lemma {:induction false} EditedElemsWellFormed(p: Place, es: Elems)
    requires WellFormedElems(es)
    ensures WellFormedElems(EditedElems(p, es)) && (es.Elem? <==> EditedElems(p, es).Elem?)
    decreases es
  {
    if es.Elem? {
      EditedWellFormed(p, es.value);
      EditedElemsWellFormed(p, es.rest);
    }
  }

  lemma {:induction false} EditedMembersWellFormed(p: Place, ms: Members)
    requires WellFormedMembers(ms)
    ensures WellFormedMembers(EditedMembers(p, ms)) && (ms.Member? <==> EditedMembers(p, ms).Member?)
    decreases ms
  {
    hide MemberPlace, Decode, IsLast;
    if ms.Member? {
      var child := MemberPlace(p, Decode(ms.key));
      if child.Some? { EditedWellFormed(child.value, ms.value); }
      EditedMembersWellFormed(p, ms.rest);
    }
  }

  lemma NewTtlWellFormed(post: string)
    requires AllSpace(post)
    ensures WellFormedMembers(NewTtl(post)) && WellFormed(Str(EXTENDED))
  {
    PlainBody("ttl");
    PlainBody(EXTENDED);
  }

  lemma {:induction false} BreakpointWellFormed(gap: string, ms: Members)
    requires WellFormed(Obj(gap, ms))
    ensures WellFormed(EditedBreakpoint(gap, ms))
  {
    hide KeysReadable, HasKey, IsStrBody;
    if KeysReadable(ms) {
      NewTtlWellFormed(gap);
      if HasKey(ms, "ttl") { WithTtlWellFormed(ms); }
      else if ms.Member? { WithNewTtlWellFormed(ms); }
    }
  }

  lemma {:induction false} WithTtlWellFormed(ms: Members)
    requires HasKey(ms, "ttl") && WellFormedMembers(ms)
    ensures ms.Member? && WellFormedMembers(WithTtl(ms)) && WithTtl(ms).Member?
  {
    hide Decode, IsStrBody, IsExtendedTtl;
    if HasKey(ms.rest, "ttl") { WithTtlWellFormed(ms.rest); } else { NewTtlWellFormed(""); }
  }

  lemma {:induction false} WithNewTtlWellFormed(ms: Members)
    requires ms.Member? && WellFormedMembers(ms)
    ensures WellFormedMembers(WithNewTtl(ms)) && WithNewTtl(ms).Member?
  {
    hide IsStrBody, NewTtl;
    if ms.rest.Member? { WithNewTtlWellFormed(ms.rest); } else { NewTtlWellFormed(ms.post); }
  }

  // ----- Its meaning is the reference edit -----

  /** The reference edit of the fields of an object at `p`. */
  function ExtendFields(p: Place, m: map<string, Json>): map<string, Json> {
    map k | k in m :: if MemberPlace(p, k).Some? then ExtendAt(MemberPlace(p, k).value, m[k]) else m[k]
  }

  lemma ExtendAtObject(p: Place, m: map<string, Json>)
    requires !p.Breakpoint?
    ensures ExtendAt(p, JObj(m)) == JObj(ExtendFields(p, m))
  {
    match p
    case Root => ExtendRootFields(m);
    case Block => assert ExtendBlock(JObj(m)).fields == ExtendFields(p, m);
    case Message => assert ExtendMessage(JObj(m)).fields == ExtendFields(p, m);
    case Blocks => assert m == ExtendFields(p, m);
    case Messages => assert m == ExtendFields(p, m);
  }

  lemma ExtendRootFields(m: map<string, Json>)
    ensures ExtendTree(JObj(m)) == JObj(ExtendFields(Root, m))
  {
    hide ExtendBlocks, ExtendMessages;
    var s, t, u := "system", "tools", "messages";
    assert s != t && u != s && u != t;
    var c := ExtendTree(JObj(m)).fields;
    forall k | k in m
      ensures c[k] == ExtendFields(Root, m)[k]
    {
    }
    assert c == ExtendFields(Root, m);
  }

  lemma ExtendAtArray(p: Place, items: seq<Json>)
    ensures ExtendAt(p, JArr(items)) ==
      if ElemPlace(p).Some? then
        JArr(seq(|items|, i requires 0 <= i < |items| => ExtendAt(ElemPlace(p).value, items[i])))
      else JArr(items)
  {
    if ElemPlace(p).Some? {
      assert ExtendAt(p, JArr(items)).items ==
        seq(|items|, i requires 0 <= i < |items| => ExtendAt(ElemPlace(p).value, items[i]));
    }
  }

  /** The edited syntax tree means the reference edit of what the original means. */
  lemma {:induction false} EditedMeaning(p: Place, v: Value)
    requires Accepted(v)
    ensures Tree(Edited(p, v)) == ExtendAt(p, Tree(v))
    decreases v
  {
    hide MemberPlace, EditedBreakpoint, ExtendFields, ExtendAt;
    match v
    case Arr(gap, elems) =>
      ExtendAtArray(p, Items(elems));
      if ElemPlace(p).Some? { EditedItems(ElemPlace(p).value, elems); }
    case Obj(gap, members) =>
      if p.Breakpoint? {
        BreakpointMeaning(gap, members);
        assert ExtendAt(p, Tree(v)) == ExtendBreakpoint(Tree(v)) by { AtBreakpoint(Tree(v)); }
      } else {
        ExtendAtObject(p, Fields(members));
        EditedFields(p, members);
      }
    case _ => ScalarUntouched(p, Tree(v));
  }

  lemma AtBreakpoint(j: Json)
    ensures ExtendAt(Breakpoint, j) == ExtendBreakpoint(j)
  {
  }

  lemma ScalarUntouched(p: Place, j: Json)
    requires j.JBare? || j.JStr?
    ensures ExtendAt(p, j) == j
  {
  }

  lemma {:induction false} EditedItems(p: Place, es: Elems)
    requires AcceptedElems(es)
    ensures Items(EditedElems(p, es)) ==
      seq(|Items(es)|, i requires 0 <= i < |Items(es)| => ExtendAt(p, Items(es)[i]))
    decreases es
  {
    hide ExtendAt, Edited, Tree;
    if es.Elem? {
      EditedMeaning(p, es.value);
      EditedItems(p, es.rest);
    }
  }

  /** A field that a later one hides does not matter. */
  lemma HiddenField(k: string, x: Json, y: Json, m: map<string, Json>)
    requires k in m
    ensures map[k := x] + m == map[k := y] + m
  {
  }

  lemma ExtendFieldsAdd(p: Place, k: string, x: Json, m: map<string, Json>)
    ensures ExtendFields(p, map[k := x] + m) ==
      map[k := if MemberPlace(p, k).Some? then ExtendAt(MemberPlace(p, k).value, x) else x] + ExtendFields(p, m)
  {
    hide MemberPlace, ExtendAt;
  }

  lemma {:induction false} EditedFields(p: Place, ms: Members)
    requires AcceptedMembers(ms) && !p.Breakpoint?
    ensures Fields(EditedMembers(p, ms)) == ExtendFields(p, Fields(ms))
    decreases ms
  {
    hide ExtendAt, Edited, Tree, MemberPlace, Decode, ExtendFields;
    if ms.NoMember? {
      NoFields(p);
    } else {
      var k := Decode(ms.key);
      var child := MemberPlace(p, k);
      var rest := ExtendFields(p, Fields(ms.rest));
      EditedFields(p, ms.rest);
      FieldsKeys(ms.rest, k);
      SameKeys(p, Fields(ms.rest), k);
      ExtendFieldsAdd(p, k, Tree(ms.value), Fields(ms.rest));
      if child.Some? {
        EditedMeaning(child.value, ms.value);
        if !IsLast(ms) { HiddenField(k, Tree(ms.value), ExtendAt(child.value, Tree(ms.value)), rest); }
      }
    }
  }

  lemma NoFields(p: Place)
    ensures ExtendFields(p, map[]) == map[]
  {
  }

  lemma SameKeys(p: Place, m: map<string, Json>, k: string)
    ensures k in ExtendFields(p, m) <==> k in m
  {
  }

  lemma {:induction false} BreakpointMeaning(gap: string, ms: Members)
    requires AcceptedMembers(ms)
    ensures Tree(EditedBreakpoint(gap, ms)) == ExtendBreakpoint(JObj(Fields(ms)))
  {
    hide KeysReadable, HasKey, WithTtl, WithNewTtl, NewTtl;
    AcceptedKeys(ms);
    FieldsKeys(ms, "ttl");
    if HasKey(ms, "ttl") {
      WithTtlMeaning(ms);
      assert Fields(ms)["ttl" := JStr(EXTENDED)] == Fields(ms) || Fields(ms)["ttl"] != JStr(EXTENDED);
    } else if ms.NoMember? {
      NewTtlMeaning(gap);
    } else {
      WithNewTtlMeaning(ms);
    }
  }

  lemma {:induction false} AcceptedKeys(ms: Members)
    requires AcceptedMembers(ms)
    ensures KeysReadable(ms)
  {
    if ms.Member? { AcceptedKeys(ms.rest); }
  }

  lemma NewTtlMeaning(post: string)
    ensures Fields(NewTtl(post)) == map["ttl" := JStr(EXTENDED)]
  {
    DecodePlain("ttl");
    DecodePlain(EXTENDED);
    assert Fields(NoMember) == map[];
    assert Tree(Str(EXTENDED)) == JStr(EXTENDED);
  }

  lemma {:induction false} WithTtlMeaning(ms: Members)
    requires AcceptedMembers(ms) && HasKey(ms, "ttl")
    ensures Fields(WithTtl(ms)) == Fields(ms)["ttl" := JStr(EXTENDED)]
    decreases ms
  {
    hide Decode, HasLoneSurrogate;
    FieldsKeys(ms.rest, "ttl");
    DecodePlain(EXTENDED);
    if HasKey(ms.rest, "ttl") {
      WithTtlMeaning(ms.rest);
    } else if IsExtendedTtl(ms.value) {
      assert Tree(ms.value) == JStr(EXTENDED);
    } else {
      assert Tree(Str(EXTENDED)) == JStr(EXTENDED);
    }
  }

  lemma {:induction false} WithNewTtlMeaning(ms: Members)
    requires ms.Member? && !HasKey(ms, "ttl")
    ensures Fields(WithNewTtl(ms)) == Fields(ms)["ttl" := JStr(EXTENDED)]
    decreases ms
  {
    hide Decode, NewTtl, Tree;
    if ms.rest.Member? { WithNewTtlMeaning(ms.rest); }
    else {
      NewTtlMeaning(ms.post);
      assert Fields(NoMember) == map[];
    }
  }

  // ----- How many splices there are -----

  /** The number of breakpoints that need an edit: what the tree walk's `changed` counts. */
  function Edits(p: Place, v: Value): nat
    decreases v
  {
    match v
    case Arr(_, elems) => if ElemPlace(p).Some? then EditsElems(ElemPlace(p).value, elems) else 0
    case Obj(_, members) => if p.Breakpoint? then EditsTtl(members) else EditsMembers(p, members)
    case _ => 0
  }

  function EditsElems(p: Place, es: Elems): nat
    decreases es
  {
    if es.NoElem? then 0 else Edits(p, es.value) + EditsElems(p, es.rest)
  }

  function EditsMembers(p: Place, ms: Members): nat
    decreases ms
  {
    if ms.NoMember? then 0
    else
      var child := MemberPlace(p, Decode(ms.key));
      (if child.Some? && IsLast(ms) then Edits(child.value, ms.value) else 0) + EditsMembers(p, ms.rest)
  }

  function EditsTtl(ms: Members): nat {
    if !KeysReadable(ms) || (HasKey(ms, "ttl") && IsExtendedTtl(LastTtl(ms))) then 0 else 1
  }

  function LastTtl(ms: Members): Value
    requires HasKey(ms, "ttl")
  {
    if HasKey(ms.rest, "ttl") then LastTtl(ms.rest) else ms.value
  }

  /** Each edit queues one splice. */
  lemma {:induction false} SpliceCount(p: Place, v: Value, off: nat, more: seq<Splice>)
    ensures |Splices(p, v, off, more)| == Edits(p, v) + |more|
    decreases v
  {
    hide TtlSplices, EditsTtl, ElemSplices, MemberSplices, EditsElems, EditsMembers, MemberPlace;
    match v
    case Arr(gap, elems) =>
      if ElemPlace(p).Some? { SpliceCountElems(ElemPlace(p).value, elems, off + 1 + |gap|, more); }
    case Obj(gap, members) =>
      if p.Breakpoint? { SpliceCountTtl(gap, members, off + 1, more); }
      else { SpliceCountMembers(p, members, off + 1 + |gap|, more); }
    case _ =>
  }

  lemma {:induction false} SpliceCountElems(p: Place, es: Elems, off: nat, more: seq<Splice>)
    ensures |ElemSplices(p, es, off, more)| == EditsElems(p, es) + |more|
    decreases es
  {
    hide Splices, Edits;
    if es.Elem? {
      var next := off + |es.pre| + Len(es.value) + |es.post| + 1;
      SpliceCountElems(p, es.rest, next, more);
      SpliceCount(p, es.value, off + |es.pre|, ElemSplices(p, es.rest, next, more));
    }
  }

  lemma {:induction false} SpliceCountMembers(p: Place, ms: Members, off: nat, more: seq<Splice>)
    ensures |MemberSplices(p, ms, off, more)| == EditsMembers(p, ms) + |more|
    decreases ms
  {
    hide Splices, Edits, MemberPlace, Decode, IsLast;
    if ms.Member? {
      var child := MemberPlace(p, Decode(ms.key));
      var later := MemberSplices(p, ms.rest, NextMember(ms, off), more);
      SpliceCountMembers(p, ms.rest, NextMember(ms, off), more);
      if child.Some? { SpliceCount(child.value, ms.value, off + HeadLen(ms), later); }
    }
  }

  lemma SpliceCountTtl(gap: string, ms: Members, off: nat, more: seq<Splice>)
    ensures |TtlSplices(gap, ms, off, more)| == EditsTtl(ms) + |more|
  {
    hide KeysReadable, IsExtendedTtl;
    if HasKey(ms, "ttl") { SpliceCountReplace(ms, off + |gap|, more); }
    else if ms.Member? { SpliceCountInsert(ms, off + |gap|, more); }
  }

  lemma {:induction false} SpliceCountReplace(ms: Members, off: nat, more: seq<Splice>)
    requires HasKey(ms, "ttl")
    ensures |ReplaceSplices(ms, off, more)| == (if IsExtendedTtl(LastTtl(ms)) then 0 else 1) + |more|
    decreases ms
  {
    hide Decode, IsExtendedTtl;
    if HasKey(ms.rest, "ttl") { SpliceCountReplace(ms.rest, NextMember(ms, off), more); }
  }

  lemma {:induction false} SpliceCountInsert(ms: Members, off: nat, more: seq<Splice>)
    requires ms.Member?
    ensures |InsertSplices(ms, off, more)| == 1 + |more|
    decreases ms
  {
    if ms.rest.Member? { SpliceCountInsert(ms.rest, NextMember(ms, off), more); }
  }

  /** Nothing is queued exactly when the reference edit changes nothing. */
  lemma {:induction false} NoEdits(p: Place, v: Value)
    requires Accepted(v)
    ensures Edits(p, v) == 0 <==> ExtendAt(p, Tree(v)) == Tree(v)
    decreases v
  {
    hide MemberPlace, ExtendFields, ExtendAt, EditsTtl;
    match v
    case Arr(gap, elems) =>
      ExtendAtArray(p, Items(elems));
      if ElemPlace(p).Some? { NoEditsElems(ElemPlace(p).value, elems); }
    case Obj(gap, members) =>
      if p.Breakpoint? {
        NoEditsTtl(members);
        AtBreakpoint(Tree(v));
      } else {
        ExtendAtObject(p, Fields(members));
        NoEditsMembers(p, members);
      }
    case _ => ScalarUntouched(p, Tree(v));
  }

  lemma {:induction false} NoEditsElems(p: Place, es: Elems)
    requires AcceptedElems(es)
    ensures EditsElems(p, es) == 0 <==>
      seq(|Items(es)|, i requires 0 <= i < |Items(es)| => ExtendAt(p, Items(es)[i])) == Items(es)
    decreases es
  {
    hide ExtendAt, Edits, Tree;
    if es.Elem? {
      NoEdits(p, es.value);
      NoEditsElems(p, es.rest);
      var items, rest := Items(es), Items(es.rest);
      var a := seq(|items|, i requires 0 <= i < |items| => ExtendAt(p, items[i]));
      var b := seq(|rest|, i requires 0 <= i < |rest| => ExtendAt(p, rest[i]));
      assert a == [ExtendAt(p, Tree(es.value))] + b;
      assert a[0] == ExtendAt(p, Tree(es.value)) && a[1..] == b;
      assert items[0] == Tree(es.value) && items[1..] == rest;
    }
  }

  lemma {:induction false} NoEditsMembers(p: Place, ms: Members)
    requires AcceptedMembers(ms) && !p.Breakpoint?
    ensures EditsMembers(p, ms) == 0 <==> ExtendFields(p, Fields(ms)) == Fields(ms)
    decreases ms
  {
    hide ExtendAt, Edits, Tree, MemberPlace, Decode, ExtendFields;
    if ms.NoMember? {
      NoFields(p);
    } else {
      var k := Decode(ms.key);
      var child := MemberPlace(p, k);
      var m := Fields(ms.rest);
      var x := Tree(ms.value);
      var y := if child.Some? then ExtendAt(child.value, x) else x;
      NoEditsMembers(p, ms.rest);
      FieldsKeys(ms.rest, k);
      SameKeys(p, m, k);
      ExtendFieldsAdd(p, k, x, m);
      FirstField(k, x, y, m, ExtendFields(p, m));
      if child.Some? { NoEdits(child.value, ms.value); }
    }
  }

  /** Two maps built on a first field agree when their parts do, unless the field is hidden. */
  lemma FirstField(k: string, x: Json, y: Json, m: map<string, Json>, m': map<string, Json>)
    requires k in m' <==> k in m
    ensures map[k := y] + m' == map[k := x] + m <==> m' == m && (k in m || x == y)
  {
    var a, b := map[k := x] + m, map[k := y] + m';
    assert a[k] == (if k in m then m[k] else x);
    assert b[k] == (if k in m' then m'[k] else y);
    if a == b {
      assert m' == a - (if k in m then {} else {k});
      assert m == b - (if k in m then {} else {k});
    }
  }

  lemma NoEditsTtl(ms: Members)
    requires AcceptedMembers(ms)
    ensures EditsTtl(ms) == 0 <==> ExtendBreakpoint(JObj(Fields(ms))) == JObj(Fields(ms))
  {
    hide KeysReadable, HasKey, IsExtendedTtl;
    AcceptedKeys(ms);
    FieldsKeys(ms, "ttl");
    if HasKey(ms, "ttl") { LastTtlField(ms); }
    assert Fields(ms)["ttl" := JStr(EXTENDED)]["ttl"] == JStr(EXTENDED);
  }

  lemma {:induction false} LastTtlField(ms: Members)
    requires AcceptedMembers(ms) && HasKey(ms, "ttl")
    ensures "ttl" in Fields(ms) && Fields(ms)["ttl"] == Tree(LastTtl(ms))
    ensures IsExtendedTtl(LastTtl(ms)) <==> Tree(LastTtl(ms)) == JStr(EXTENDED)
    decreases ms
  {
    hide Decode, HasLoneSurrogate;
    FieldsKeys(ms.rest, "ttl");
    if HasKey(ms.rest, "ttl") { LastTtlField(ms.rest); }
  }

  // ----- An edited tree needs no edit -----

  lemma {:induction false} EditedKeys(p: Place, ms: Members, name: string)
    ensures HasKey(EditedMembers(p, ms), name) <==> HasKey(ms, name)
    decreases ms
  {
    hide MemberPlace, Decode, IsLast, Edited;
    if ms.Member? { EditedKeys(p, ms.rest, name); }
  }

  lemma {:induction false} EditedIsDone(p: Place, v: Value)
    ensures Edits(p, Edited(p, v)) == 0
    decreases v
  {
    hide EditsTtl, EditedBreakpoint;
    match v
    case Arr(gap, elems) =>
      if ElemPlace(p).Some? { EditedElemsDone(ElemPlace(p).value, elems); }
    case Obj(gap, members) =>
      if p.Breakpoint? { BreakpointDone(gap, members); } else { EditedMembersDone(p, members); }
    case _ =>
  }

  lemma {:induction false} EditedElemsDone(p: Place, es: Elems)
    ensures EditsElems(p, EditedElems(p, es)) == 0
    decreases es
  {
    hide Edits, Edited;
    if es.Elem? {
      EditedIsDone(p, es.value);
      EditedElemsDone(p, es.rest);
    }
  }

  lemma {:induction false} EditedMembersDone(p: Place, ms: Members)
    ensures EditsMembers(p, EditedMembers(p, ms)) == 0
    decreases ms
  {
    hide Edits, Edited, MemberPlace, Decode;
    if ms.Member? {
      var child := MemberPlace(p, Decode(ms.key));
      if child.Some? { EditedIsDone(child.value, ms.value); }
      EditedMembersDone(p, ms.rest);
      EditedKeys(p, ms.rest, Decode(ms.key));
    }
  }

  lemma BreakpointDone(gap: string, ms: Members)
    ensures EditedBreakpoint(gap, ms).Obj? && EditsTtl(EditedBreakpoint(gap, ms).members) == 0
  {
    hide KeysReadable, HasKey, IsExtendedTtl, LastTtl;
    if KeysReadable(ms) {
      if HasKey(ms, "ttl") { WithTtlDone(ms); }
      else if ms.NoMember? { NewTtlDone(gap); }
      else { WithNewTtlDone(ms); }
    }
  }

  lemma ExtendedValue()
    ensures IsExtendedTtl(Str(EXTENDED))
  {
    DecodePlain(EXTENDED);
  }

  lemma NewTtlDone(post: string)
    ensures HasKey(NewTtl(post), "ttl") && IsExtendedTtl(LastTtl(NewTtl(post)))
  {
    DecodePlain("ttl");
    ExtendedValue();
  }

  lemma {:induction false} WithTtlDone(ms: Members)
    requires HasKey(ms, "ttl")
    ensures HasKey(WithTtl(ms), "ttl") && IsExtendedTtl(LastTtl(WithTtl(ms)))
    decreases ms
  {
    hide Decode, IsExtendedTtl;
    ExtendedValue();
    if HasKey(ms.rest, "ttl") { WithTtlDone(ms.rest); }
  }

  lemma {:induction false} WithNewTtlDone(ms: Members)
    requires ms.Member?
    ensures HasKey(WithNewTtl(ms), "ttl") && IsExtendedTtl(LastTtl(WithNewTtl(ms)))
    decreases ms
  {
    hide Decode, IsExtendedTtl, NewTtl;
    if ms.rest.Member? { WithNewTtlDone(ms.rest); } else { NewTtlDone(ms.post); }
  }
}
