/** The rewrite as it runs: visitors that push splices in loops and drop those of a key that
    repeats, a sort, and one copy of the body.  `ExtendAllTtls` is proved to answer `Rewritten`. */
module CacheTtlWalk {
  import opened Sequences
  import opened Options
  import opened JsonText
  import opened JsonTree
  import opened CacheTtl
  import opened CacheTtlRewrite
  import opened Sorting

  // ----- Splices of parts concatenate -----

  lemma {:induction false} SplicesThen(p: Place, v: Value, off: nat, more: seq<Splice>)
    ensures Splices(p, v, off, more) == Splices(p, v, off, []) + more
    decreases v
  {
    hide TtlSplices;
    match v
    case Arr(gap, elems) =>
      if ElemPlace(p).Some? { ElemSplicesThen(ElemPlace(p).value, elems, off + 1 + |gap|, more); }
    case Obj(gap, members) =>
      if p.Breakpoint? { TtlSplicesThen(gap, members, off + 1, more); }
      else { MemberSplicesThen(p, members, off + 1 + |gap|, more); }
    case _ =>
  }

  lemma {:induction false} ElemSplicesThen(p: Place, es: Elems, off: nat, more: seq<Splice>)
    ensures ElemSplices(p, es, off, more) == ElemSplices(p, es, off, []) + more
    decreases es
  {
    hide Splices;
    if es.Elem? {
      var next := off + |es.pre| + Len(es.value) + |es.post| + 1;
      ElemSplicesThen(p, es.rest, next, more);
      SplicesThen(p, es.value, off + |es.pre|, ElemSplices(p, es.rest, next, more));
      SplicesThen(p, es.value, off + |es.pre|, ElemSplices(p, es.rest, next, []));
    }
  }

  lemma {:induction false} MemberSplicesThen(p: Place, ms: Members, off: nat, more: seq<Splice>)
    ensures MemberSplices(p, ms, off, more) == MemberSplices(p, ms, off, []) + more
    decreases ms
  {
    hide Splices, MemberPlace, Decode, IsLast;
    if ms.Member? {
      var child := MemberPlace(p, Decode(ms.key));
      var next := NextMember(ms, off);
      MemberSplicesThen(p, ms.rest, next, more);
      if child.Some? {
        SplicesThen(child.value, ms.value, off + HeadLen(ms), MemberSplices(p, ms.rest, next, more));
        SplicesThen(child.value, ms.value, off + HeadLen(ms), MemberSplices(p, ms.rest, next, []));
      }
    }
  }

  lemma TtlSplicesThen(gap: string, ms: Members, off: nat, more: seq<Splice>)
    ensures TtlSplices(gap, ms, off, more) == TtlSplices(gap, ms, off, []) + more
  {
    hide KeysReadable;
    if HasKey(ms, "ttl") { ReplaceSplicesThen(ms, off + |gap|, more); }
    else if ms.Member? { InsertSplicesThen(ms, off + |gap|, more); }
  }

  lemma {:induction false} ReplaceSplicesThen(ms: Members, off: nat, more: seq<Splice>)
    requires HasKey(ms, "ttl")
    ensures ReplaceSplices(ms, off, more) == ReplaceSplices(ms, off, []) + more
    decreases ms
  {
    hide Decode, IsExtendedTtl;
    if HasKey(ms.rest, "ttl") { ReplaceSplicesThen(ms.rest, NextMember(ms, off), more); }
  }

  lemma {:induction false} InsertSplicesThen(ms: Members, off: nat, more: seq<Splice>)
    requires ms.Member?
    ensures InsertSplices(ms, off, more) == InsertSplices(ms, off, []) + more
    decreases ms
  {
    if ms.rest.Member? { InsertSplicesThen(ms.rest, NextMember(ms, off), more); }
  }

  // ----- The last member of a name -----

  /** The splices of the last member called `name`, walked as `q`. */
  function Named(q: Place, name: string, ms: Members, off: nat): seq<Splice> {
    if ms.NoMember? then []
    else if HasKey(ms.rest, name) then Named(q, name, ms.rest, NextMember(ms, off))
    else if Decode(ms.key) == name then Splices(q, ms.value, off + HeadLen(ms), [])
    else []
  }

  lemma {:induction false} NamedAbsent(q: Place, name: string, ms: Members, off: nat)
    requires !HasKey(ms, name)
    ensures Named(q, name, ms, off) == []
    decreases ms
  {
    hide Splices, Decode;
    if ms.Member? { NamedAbsent(q, name, ms.rest, NextMember(ms, off)); }
  }

  /** A member of another name, or one that a later member hides, does not count. */
  lemma NamedStep(q: Place, name: string, ms: Members, off: nat)
    requires ms.Member?
    ensures Named(q, name, ms, off) ==
      if Decode(ms.key) == name && IsLast(ms) then Splices(q, ms.value, off + HeadLen(ms), [])
      else Named(q, name, ms.rest, NextMember(ms, off))
  {
    hide Splices, Decode;
    if !HasKey(ms.rest, name) { NamedAbsent(q, name, ms.rest, NextMember(ms, off)); }
  }

  /** An object in which one key is walked. */
  lemma {:induction false} OneName(p: Place, q: Place, name: string, ms: Members, off: nat)
    requires forall k :: MemberPlace(p, k) == if k == name then Some(q) else None
    ensures MemberSplices(p, ms, off, []) == Named(q, name, ms, off)
    decreases ms
  {
    hide Splices, Decode, IsLast, Named, MemberPlace;
    if ms.Member? {
      var next := NextMember(ms, off);
      OneName(p, q, name, ms.rest, next);
      NamedStep(q, name, ms, off);
      if Decode(ms.key) == name && IsLast(ms) {
        SplicesThen(q, ms.value, off + HeadLen(ms), MemberSplices(p, ms.rest, next, []));
        NamedAfterLast(q, name, ms, off);
      }
    } else {
      NamedNone(q, name, off);
    }
  }

  lemma NamedNone(q: Place, name: string, off: nat)
    ensures Named(q, name, NoMember, off) == []
  {
  }

  lemma NamedAfterLast(q: Place, name: string, ms: Members, off: nat)
    requires ms.Member? && Decode(ms.key) == name && IsLast(ms)
    ensures Named(q, name, ms.rest, NextMember(ms, off)) == []
  {
    NamedAbsent(q, name, ms.rest, NextMember(ms, off));
  }

  /** The three walked members of the root together hold the root's splices. */
  lemma {:induction false} ThreeNames(ms: Members, off: nat)
    ensures multiset(MemberSplices(Root, ms, off, [])) ==
      multiset(Named(Blocks, "system", ms, off)) + multiset(Named(Blocks, "tools", ms, off))
      + multiset(Named(Messages, "messages", ms, off))
    decreases ms
  {
    hide Splices, Decode, IsLast, Named;
    var s, t, u := "system", "tools", "messages";
    if ms.Member? {
      var next := NextMember(ms, off);
      var k := Decode(ms.key);
      ThreeNames(ms.rest, next);
      NamedStep(Blocks, s, ms, off);
      NamedStep(Blocks, t, ms, off);
      NamedStep(Messages, u, ms, off);
      var child := MemberPlace(Root, k);
      if child.Some? && IsLast(ms) {
        SplicesThen(child.value, ms.value, off + HeadLen(ms), MemberSplices(Root, ms.rest, next, []));
        NamedAfterLast(child.value, k, ms, off);
      }
    } else {
      NamedNone(Blocks, s, off);
      NamedNone(Blocks, t, off);
      NamedNone(Messages, u, off);
    }
  }

  // ----- Where a new member goes -----

  /** `trim_end`, on the whitespace that can end the inside of an object. */
  function TrimEnd(s: string): string {
    if s != "" && IsSpace(s[|s| - 1]) then TrimEnd(s[..|s| - 1]) else s
  }

  lemma {:induction false} TrimSpace(ws: string)
    requires AllSpace(ws)
    ensures TrimEnd(ws) == ""
  {
    if ws != "" { TrimSpace(ws[..|ws| - 1]); }
  }

  lemma {:induction false} TrimAfter(s: string, ws: string)
    requires s != "" && !IsSpace(s[|s| - 1]) && AllSpace(ws)
    ensures TrimEnd(s + ws) == s
  {
    if ws == "" {
      assert s + ws == s;
    } else {
      var all := s + ws;
      assert all[|all| - 1] == ws[|ws| - 1];
      assert all[..|all| - 1] == s + ws[..|ws| - 1];
      TrimAfter(s, ws[..|ws| - 1]);
    }
  }

  /** Bytes from the first member to the end of the last member's value. */
  function InsertLen(ms: Members): nat
    requires ms.Member?
  {
    if ms.rest.Member? then NextMember(ms, 0) + InsertLen(ms.rest) else HeadLen(ms) + Len(ms.value)
  }

  lemma {:induction false} InsertSplicesAt(ms: Members, off: nat)
    requires ms.Member?
    ensures InsertSplices(ms, off, []) ==
      [Splice(off + InsertLen(ms), off + InsertLen(ms), TTL_MEMBER_AFTER)]
    decreases ms
  {
    hide Len;
    if ms.rest.Member? { InsertSplicesAt(ms.rest, NextMember(ms, off)); }
  }

  /** The last byte of a value is not whitespace. */
  lemma RenderLast(v: Value)
    requires WellFormed(v)
    ensures Render(v) != "" && !IsSpace(Render(v)[|Render(v)| - 1])
  {
    hide PutElems, PutMembers, WellFormedElems, WellFormedMembers, IsStrBody;
    match v
    case Bare(tok) => assert Render(v) == tok;
    case Str(raw) => LastOf("\"" + raw, "\"");
    case Arr(gap, elems) =>
      var x := PutElems(elems, "");
      PutElemsIsRender(elems, "]" + "");
      Closed("[", gap, x, "]");
    case Obj(gap, members) =>
      var x := PutMembers(members, "");
      PutMembersIsRender(members, "}" + "");
      Closed("{", gap, x, "}");
  }

  lemma Closed(open: string, gap: string, x: string, close: string)
    requires |close| == 1
    ensures var s := open + (gap + (x + (close + ""))); s != "" && s[|s| - 1] == close[0]
  {
    assert close + "" == close;
    Assoc(gap, x, close);
    Assoc(open, gap + x, close);
    LastOf(open + (gap + x), close);
  }

  lemma LastOf(a: string, c: string)
    requires |c| == 1
    ensures (a + c) != "" && (a + c)[|a + c| - 1] == c[0]
  {
  }

  /** The members, without the whitespace after the last. */
  lemma {:induction false} MembersEnd(ms: Members)
    requires ms.Member? && WellFormedMembers(ms)
    ensures exists core, ws :: EndsWith(PutMembers(ms, ""), core, ws) && |core| == InsertLen(ms)
    decreases ms
  {
    hide IsStrBody, WellFormed, Len, Put, EndsWith, PutMembers;
    if ms.rest.Member? {
      MembersEnd(ms.rest);
      var text := PutMembers(ms.rest, "");
      var core, ws :| EndsWith(text, core, ws) && |core| == InsertLen(ms.rest);
      var head := BeforeRest(ms);
      Prepend(head, text, core, ws);
    } else {
      var core := LastMember(ms);
    }
  }

  lemma BeforeRest(ms: Members) returns (head: string)
    requires ms.Member? && ms.rest.Member?
    ensures PutMembers(ms, "") == head + PutMembers(ms.rest, "") && |head| == NextMember(ms, 0)
  {
    hide Put, Len;
    var text, r, c := PutMembers(ms.rest, ""), Render(ms.value), ms.post + ",";
    PutIsRender(ms.value, ms.post + ("," + text));
    Assoc(ms.post, ",", text);
    Assoc(r, c, text);
    head := PutHead(ms, r + c);
    PutHeadIsText(ms, r + c, text);
  }

  lemma LastMember(ms: Members) returns (core: string)
    requires ms.Member? && ms.rest.NoMember? && WellFormed(ms.value) && AllSpace(ms.post)
    ensures EndsWith(PutMembers(ms, ""), core, ms.post) && |core| == HeadLen(ms) + Len(ms.value)
  {
    hide Put, Len, WellFormed, PutHead;
    var r, h := Render(ms.value), PutHead(ms, "");
    PutIsRender(ms.value, ms.post + "");
    RenderLast(ms.value);
    assert ms.post + "" == ms.post && "" + r == r;
    PutHeadIsText(ms, r, ms.post);
    PutHeadIsText(ms, "", r);
    core := PutHead(ms, r);
    assert (h + r)[|h + r| - 1] == r[|r| - 1];
  }

  predicate EndsWith(text: string, core: string, ws: string) {
    text == core + ws && core != "" && !IsSpace(core[|core| - 1]) && AllSpace(ws)
  }

  lemma Prepend(head: string, text: string, core: string, ws: string)
    requires EndsWith(text, core, ws)
    ensures EndsWith(head + text, head + core, ws)
  {
    Assoc(head, core, ws);
    assert (head + core)[|head + core| - 1] == core[|core| - 1];
  }

  /** Trimming the inside of an object's text finds the point the splice inserts at. */
  lemma TrimmedInside(gap: string, ms: Members)
    requires WellFormed(Obj(gap, ms))
    ensures var text := Render(Obj(gap, ms));
      && |text| >= 2
      && |TrimEnd(text[1..|text| - 1])| == (if ms.Member? then InsertLen(ms) else 0)
  {
    hide IsStrBody, PutMembers, Len, InsertLen, WellFormedMembers, TrimEnd;
    var text := Render(Obj(gap, ms));
    var inner := PutMembers(ms, "");
    PutMembersIsRender(ms, "}" + "");
    assert text == "{" + ((gap + inner) + "}");
    assert text[1..|text| - 1] == gap + inner;
    if ms.Member? {
      MembersEnd(ms);
      var core, ws :| EndsWith(inner, core, ws) && |core| == InsertLen(ms);
      TrimAfter(core, ws);
      assert gap + inner == core + ws;
    } else {
      TrimSpace(gap);
      EmptyMembers();
      assert gap + inner == gap;
    }
  }

  lemma EmptyMembers()
    ensures PutMembers(NoMember, "") == ""
  {
  }

  // ----- The visitors -----

  /** The splice for the `ttl` value that was picked. */
  function ReplacePicked(ttl: (Value, nat)): seq<Splice> {
    if IsExtendedTtl(ttl.0) then [] else [Splice(ttl.1, ttl.1 + Len(ttl.0), EXTENDED_JSON)]
  }

  /** `PickMembers` for `ttl`: the last `ttl` value and its offset; `ok` is false when a key
      cannot be read. */
  method PickTtl(ms: Members, off: nat) returns (ok: bool, ttl: Option<(Value, nat)>)
    ensures ok <==> KeysReadable(ms)
    ensures ok ==> (ttl.Some? <==> HasKey(ms, "ttl"))
    ensures ok && ttl.Some? ==> ReplaceSplices(ms, off, []) == ReplacePicked(ttl.value)
  {
    hide Decode, HasLoneSurrogate, IsExtendedTtl, Len;
    ok, ttl := true, None;
    var rest := ms;
    var at: nat := off;
    while rest.Member?
      invariant KeysReadable(ms) <==> KeysReadable(rest)
      invariant HasKey(ms, "ttl") <==> HasKey(rest, "ttl") || ttl.Some?
      invariant HasKey(rest, "ttl") ==> ReplaceSplices(ms, off, []) == ReplaceSplices(rest, at, [])
      invariant !HasKey(rest, "ttl") && ttl.Some? ==> ReplaceSplices(ms, off, []) == ReplacePicked(ttl.value)
      decreases rest
    {
      if HasLoneSurrogate(rest.key) { return false, None; }
      if Decode(rest.key) == "ttl" { ttl := Some((rest.value, at + HeadLen(rest))); }
      rest, at := rest.rest, NextMember(rest, at);
    }
  }

  /** `extend_cache_control`: queue the splice of one breakpoint value whose text starts at `off`. */
  method ExtendCacheControl(v: Value, off: nat) returns (splices: seq<Splice>)
    requires WellFormed(v)
    ensures splices == Splices(Breakpoint, v, off, [])
  {
    if !v.Obj? { return []; }
    var ok, ttl := PickTtl(v.members, off + 1 + |v.gap|);
    if !ok { return []; }
    if ttl.Some? {
      var (value, start) := ttl.value;
      if IsExtendedTtl(value) { return []; }
      return [Splice(start, start + Len(value), EXTENDED_JSON)];
    }
    var text := Render(v);
    TrimmedInside(v.gap, v.members);
    if v.members.Member? { InsertSplicesAt(v.members, off + 1); }
    var inside := TrimEnd(text[1..|text| - 1]);
    var at := off + 1 + |inside|;
    splices := [Splice(at, at, if inside == "" then TTL_MEMBER else TTL_MEMBER_AFTER)];
  }

  /** `Item` on a block: remember the last `cache_control`, extend it at the end. */
  method WalkBlock(v: Value, off: nat) returns (ok: bool, splices: seq<Splice>)
    requires WellFormed(v)
    ensures ok <==> Readable(Block, v)
    ensures ok ==> splices == Splices(Block, v, off, [])
  {
    if !v.Obj? { return IsPassable(v), []; }
    ReadObject(v);
    hide Readable, MemberPlace, WellFormed, Decode, HasLoneSurrogate, IsStrBody, Len, Splices, Named, NamedOr, ReadableMembers;
    var start: nat := off + 1 + |v.gap|;
    var rest := v.members;
    var at: nat := start;
    var last: Option<(Value, nat)> := None;
    FoundStart(Breakpoint, "cache_control", rest, at);
    while rest.Member?
      invariant WellFormedMembers(rest) && (last.Some? ==> WellFormed(last.value.0))
      invariant ReadableMembers(Block, v.members) <==> ReadableMembers(Block, rest)
      invariant Named(Breakpoint, "cache_control", v.members, start) ==
                NamedOr(Breakpoint, "cache_control", rest, at, LastSplices(last))
      decreases rest
    {
      ReadStep(rest);
      if HasLoneSurrogate(rest.key) { return false, []; }
      ghost var was := last;
      if Decode(rest.key) == "cache_control" { last := Some((rest.value, at + HeadLen(rest))); }
      FoundStep(Breakpoint, "cache_control", rest, at, LastSplices(was), LastSplices(last));
      rest, at := rest.rest, NextMember(rest, at);
    }
    BlockSplices(v, off);
    FoundStart(Breakpoint, "cache_control", rest, at);
    NothingLeft();
    if last.None? { return true, []; }
    splices := ExtendCacheControl(last.value.0, last.value.1);
    ok := true;
  }

  /** The splices of the remembered `cache_control`. */
  function LastSplices(last: Option<(Value, nat)>): seq<Splice> {
    if last.None? then [] else Splices(Breakpoint, last.value.0, last.value.1, [])
  }

  /** The splices of the last `name` among the members still to be read, or those found so far. */
  function NamedOr(q: Place, name: string, ms: Members, off: nat, found: seq<Splice>): seq<Splice> {
    if HasKey(ms, name) then Named(q, name, ms, off) else found
  }

  /** Reading one member: a member called `name` replaces what was found. */
  lemma FoundStep(q: Place, name: string, ms: Members, at: nat, found: seq<Splice>, found': seq<Splice>)
    requires ms.Member?
    requires found' == if Decode(ms.key) == name then Splices(q, ms.value, at + HeadLen(ms), []) else found
    ensures NamedOr(q, name, ms, at, found) == NamedOr(q, name, ms.rest, NextMember(ms, at), found')
  {
    hide Splices, Decode;
  }

  lemma FoundStart(q: Place, name: string, ms: Members, at: nat)
    ensures NamedOr(q, name, ms, at, []) == Named(q, name, ms, at)
    ensures forall found :: NamedOr(q, name, NoMember, at, found) == found
  {
    hide Splices, Decode;
    if !HasKey(ms, name) { NamedAbsent(q, name, ms, at); }
  }

  /** What reading a member asks of its key and value, at each place with members. */
  lemma ReadStep(ms: Members)
    requires ms.Member?
    ensures ReadableMembers(Block, ms) <==> !HasLoneSurrogate(ms.key) && ReadableMembers(Block, ms.rest)
    ensures ReadableMembers(Message, ms) <==>
      && !HasLoneSurrogate(ms.key) && (Decode(ms.key) == "content" ==> Readable(Blocks, ms.value))
      && ReadableMembers(Message, ms.rest)
  {
    hide HasLoneSurrogate, Decode;
  }

  lemma ReadObject(v: Value)
    requires v.Obj?
    ensures Readable(Message, v) <==> ReadableMembers(Message, v.members)
    ensures Readable(Block, v) <==> ReadableMembers(Block, v.members)
  {
  }

  lemma NothingLeft()
    ensures ReadableMembers(Root, NoMember) && ReadableMembers(Block, NoMember) && ReadableMembers(Message, NoMember)
  {
  }

  lemma ReadStepRoot(ms: Members)
    requires ms.Member?
    ensures ReadableMembers(Root, ms) <==>
      && !HasLoneSurrogate(ms.key)
      && (Decode(ms.key) == "system" || Decode(ms.key) == "tools" ==> Readable(Blocks, ms.value))
      && (Decode(ms.key) == "messages" ==> Readable(Messages, ms.value))
      && ReadableMembers(Root, ms.rest)
  {
    hide HasLoneSurrogate, Decode;
  }

  lemma BlockSplices(v: Value, off: nat)
    requires v.Obj?
    ensures Splices(Block, v, off, []) == Named(Breakpoint, "cache_control", v.members, off + 1 + |v.gap|)
  {
    hide Named, MemberSplices, Decode;
    OneName(Block, Breakpoint, "cache_control", v.members, off + 1 + |v.gap|);
  }

  lemma MessageSplices(v: Value, off: nat)
    requires v.Obj?
    ensures Splices(Message, v, off, []) == Named(Blocks, "content", v.members, off + 1 + |v.gap|)
  {
    hide Named, MemberSplices, Decode;
    OneName(Message, Blocks, "content", v.members, off + 1 + |v.gap|);
  }

  /** `List` over blocks: the elements' splices one after another; a value that is not an array
      is skipped. */
  method WalkBlocks(v: Value, off: nat) returns (ok: bool, splices: seq<Splice>)
    requires WellFormed(v)
    ensures ok <==> Readable(Blocks, v)
    ensures ok ==> splices == Splices(Blocks, v, off, [])
  {
    if !v.Arr? {
      NotAList(Blocks, v, off);
      return IsPassable(v), [];
    }
    hide Splices, Readable, Len;
    ArraySplices(Blocks, Block, v, off);
    ok, splices := true, [];
    var start: nat := off + 1 + |v.gap|;
    var rest := v.elems;
    var at: nat := start;
    while rest.Elem?
      invariant WellFormedElems(rest)
      invariant ReadableElems(Block, v.elems) <==> ReadableElems(Block, rest)
      invariant splices + ElemSplices(Block, rest, at, []) == ElemSplices(Block, v.elems, start, [])
      decreases rest
    {
      var fine, more := WalkBlock(rest.value, at + |rest.pre|);
      if !fine { return false, []; }
      ElemStep(Block, rest, at, splices, more);
      splices := splices + more;
      rest, at := rest.rest, at + |rest.pre| + Len(rest.value) + |rest.post| + 1;
    }
  }

  lemma NotAList(p: Place, v: Value, off: nat)
    requires !v.Arr? && ElemPlace(p).Some?
    ensures (Readable(p, v) <==> IsPassable(v)) && Splices(p, v, off, []) == []
  {
    if v.Obj? { NoMemberPlaces(p, v.members, off + 1 + |v.gap|); }
  }

  lemma {:induction false} NoMemberPlaces(p: Place, ms: Members, off: nat)
    requires ElemPlace(p).Some?
    ensures MemberSplices(p, ms, off, []) == []
    decreases ms
  {
    if ms.Member? { NoMemberPlaces(p, ms.rest, NextMember(ms, off)); }
  }

  lemma ArraySplices(p: Place, q: Place, v: Value, off: nat)
    requires v.Arr? && ElemPlace(p) == Some(q)
    ensures Splices(p, v, off, []) == ElemSplices(q, v.elems, off + 1 + |v.gap|, [])
    ensures Readable(p, v) <==> ReadableElems(q, v.elems)
  {
  }

  lemma ElemStep(p: Place, es: Elems, at: nat, done: seq<Splice>, more: seq<Splice>)
    requires es.Elem? && more == Splices(p, es.value, at + |es.pre|, [])
    ensures done + ElemSplices(p, es, at, []) ==
      (done + more) + ElemSplices(p, es.rest, at + |es.pre| + Len(es.value) + |es.post| + 1, [])
  {
    hide Splices, Len;
    var later := ElemSplices(p, es.rest, at + |es.pre| + Len(es.value) + |es.post| + 1, []);
    SplicesThen(p, es.value, at + |es.pre|, later);
    assert done + (more + later) == (done + more) + later;
  }

  /** One member of a message: `content` is walked, and what an earlier one queued is dropped. */
  method WalkContent(m: Members, at: nat, found: seq<Splice>) returns (ok: bool, splices: seq<Splice>)
    requires m.Member? && WellFormed(m.value)
    ensures ok <==> (Decode(m.key) == "content" ==> Readable(Blocks, m.value))
    ensures ok ==>
      splices == if Decode(m.key) == "content" then Splices(Blocks, m.value, at + HeadLen(m), []) else found
  {
    hide Readable, Splices, Decode, WellFormed;
    if Decode(m.key) != "content" { return true, found; }
    ok, splices := WalkBlocks(m.value, at + HeadLen(m));
  }

  /** `Item` on a message: the splices of its last `content`, read as a list of blocks. */
  method WalkMessage(v: Value, off: nat) returns (ok: bool, splices: seq<Splice>)
    requires WellFormed(v)
    ensures ok <==> Readable(Message, v)
    ensures ok ==> splices == Splices(Message, v, off, [])
  {
    if !v.Obj? { return IsPassable(v), []; }
    ReadObject(v);
    hide Readable, MemberPlace, WellFormed, Decode, HasLoneSurrogate, IsStrBody, Len, Splices, Named, NamedOr, ReadableMembers;
    var start: nat := off + 1 + |v.gap|;
    var rest := v.members;
    var at: nat := start;
    ok, splices := true, [];
    FoundStart(Blocks, "content", rest, at);
    while rest.Member?
      invariant WellFormedMembers(rest)
      invariant ReadableMembers(Message, v.members) <==> ReadableMembers(Message, rest)
      invariant Named(Blocks, "content", v.members, start) == NamedOr(Blocks, "content", rest, at, splices)
      decreases rest
    {
      ReadStep(rest);
      if HasLoneSurrogate(rest.key) { return false, []; }
      var fine, found := WalkContent(rest, at, splices);
      if !fine { return false, []; }
      FoundStep(Blocks, "content", rest, at, splices, found);
      splices := found;
      rest, at := rest.rest, NextMember(rest, at);
    }
    MessageSplices(v, off);
    FoundStart(Blocks, "content", rest, at);
    NothingLeft();
  }

  /** `List` over messages. */
  method WalkMessages(v: Value, off: nat) returns (ok: bool, splices: seq<Splice>)
    requires WellFormed(v)
    ensures ok <==> Readable(Messages, v)
    ensures ok ==> splices == Splices(Messages, v, off, [])
  {
    if !v.Arr? {
      NotAList(Messages, v, off);
      return IsPassable(v), [];
    }
    hide Splices, Readable, Len;
    ArraySplices(Messages, Message, v, off);
    ok, splices := true, [];
    var start: nat := off + 1 + |v.gap|;
    var rest := v.elems;
    var at: nat := start;
    while rest.Elem?
      invariant WellFormedElems(rest)
      invariant ReadableElems(Message, v.elems) <==> ReadableElems(Message, rest)
      invariant splices + ElemSplices(Message, rest, at, []) == ElemSplices(Message, v.elems, start, [])
      decreases rest
    {
      var fine, more := WalkMessage(rest.value, at + |rest.pre|);
      if !fine { return false, []; }
      ElemStep(Message, rest, at, splices, more);
      splices := splices + more;
      rest, at := rest.rest, at + |rest.pre| + Len(rest.value) + |rest.post| + 1;
    }
  }

  /** `Root`: the splices of the last `system`, `tools` and `messages`, in that order, whatever
      order the body has them in. */
  method WalkRoot(v: Value, off: nat) returns (ok: bool, splices: seq<Splice>)
    requires v.Obj? && WellFormed(v)
    ensures ok <==> Readable(Root, v)
    ensures ok ==> multiset(splices) == multiset(Splices(Root, v, off, []))
  {
    hide Decode, HasLoneSurrogate, IsStrBody, Len, Splices, Named, NamedOr, ReadableMembers;
    var start: nat := off + 1 + |v.gap|;
    var rest := v.members;
    var at: nat := start;
    var system: seq<Splice>, tools: seq<Splice>, messages: seq<Splice> := [], [], [];
    FoundStart(Blocks, "system", rest, at);
    FoundStart(Blocks, "tools", rest, at);
    FoundStart(Messages, "messages", rest, at);
    while rest.Member?
      invariant WellFormedMembers(rest)
      invariant ReadableMembers(Root, v.members) <==> ReadableMembers(Root, rest)
      invariant Named(Blocks, "system", v.members, start) == NamedOr(Blocks, "system", rest, at, system)
      invariant Named(Blocks, "tools", v.members, start) == NamedOr(Blocks, "tools", rest, at, tools)
      invariant Named(Messages, "messages", v.members, start) == NamedOr(Messages, "messages", rest, at, messages)
      decreases rest
    {
      ReadStepRoot(rest);
      if HasLoneSurrogate(rest.key) { return false, []; }
      ghost var system', tools', messages' := system, tools, messages;
      var key := Decode(rest.key);
      var fine := true;
      if key == "system" {
        fine, system := WalkBlocks(rest.value, at + HeadLen(rest));
      } else if key == "tools" {
        fine, tools := WalkBlocks(rest.value, at + HeadLen(rest));
      } else if key == "messages" {
        fine, messages := WalkMessages(rest.value, at + HeadLen(rest));
      }
      if !fine { return false, []; }
      FoundStep(Blocks, "system", rest, at, system', system);
      FoundStep(Blocks, "tools", rest, at, tools', tools);
      FoundStep(Messages, "messages", rest, at, messages', messages);
      rest, at := rest.rest, NextMember(rest, at);
    }
    FoundStart(Blocks, "system", rest, at);
    FoundStart(Blocks, "tools", rest, at);
    FoundStart(Messages, "messages", rest, at);
    NothingLeft();
    ok, splices := true, system + tools + messages;
    RootSplices(v, off);
  }

  lemma RootSplices(v: Value, off: nat)
    requires v.Obj?
    ensures var start := off + 1 + |v.gap|;
      multiset(Splices(Root, v, off, [])) ==
      multiset(Named(Blocks, "system", v.members, start)) + multiset(Named(Blocks, "tools", v.members, start))
      + multiset(Named(Messages, "messages", v.members, start))
  {
    hide Named, MemberSplices;
    ThreeNames(v.members, off + 1 + |v.gap|);
  }

  // ----- Sort and copy -----

  predicate StartsFirst(a: Splice, b: Splice) { a.start <= b.start }

  /** Distinct starts leave the sort no choice. */
  lemma SortFinds(ss: seq<Splice>, spec: seq<Splice>)
    requires multiset(ss) == multiset(spec)
    requires forall i, j :: 0 <= i < j < |spec| ==> spec[i].start < spec[j].start
    ensures Sort(ss, StartsFirst) == spec
  {
    SortPermutes(ss, StartsFirst);
    SortSorts(ss, StartsFirst);
    StrictIsUnique(Sort(ss, StartsFirst), spec, StartsFirst);
  }

  /** Copy the body once with the splices applied. */
  method CopySpliced(body: string, ss: seq<Splice>, ghost want: string) returns (out: Option<string>)
    requires Rewrites(body, 0, ss, want)
    ensures out == Some(want)
  {
    var text := "";
    var copied := 0;
    var i := 0;
    while i < |ss|
      invariant 0 <= i <= |ss| && 0 <= copied <= |body| && |text| <= |want|
      invariant text == want[..|text|]
      invariant Rewrites(body[copied..], copied, ss[i..], want[|text|..])
    {
      var s := ss[i];
      if !(copied <= s.start <= |body|) { return None; }
      CopyStep(body, copied, ss[i..], text, want);
      assert ss[i..][1..] == ss[i + 1..];
      text := text + body[copied..s.start] + s.text;
      copied := s.end;
      i := i + 1;
    }
    if copied > |body| { return None; }
    assert ss[i..] == [];
    assert want == want[..|text|] + want[|text|..];
    out := Some(text + body[copied..]);
  }

  lemma CopyStep(body: string, copied: nat, ss: seq<Splice>, text: string, want: string)
    requires copied <= |body| && |text| <= |want| && text == want[..|text|] && ss != []
    requires Rewrites(body[copied..], copied, ss, want[|text|..])
    ensures copied <= ss[0].start <= ss[0].end < |body|
    ensures var text' := text + body[copied..ss[0].start] + ss[0].text;
      && |text'| <= |want| && text' == want[..|text'|]
      && Rewrites(body[ss[0].end..], ss[0].end, ss[1..], want[|text'|..])
  {
    hide IsSpliceText;
    var s, rest := ss[0], want[|text|..];
    Front(s, body[copied..], copied, rest);
    var mid, tail := body[copied..s.start], Copied(s, copied, rest);
    assert body[copied..][..s.start - copied] == mid;
    assert Untouched(s, body[copied..], copied) == body[s.end..];
    hide Rewrites, Copied, Applies;
    assert want == text + (mid + (s.text + tail));
    Assoc(text, mid, s.text + tail);
    Assoc(text + mid, s.text, tail);
    assert want == (text + mid + s.text) + tail;
  }

  /** `extend_all_ttls`. */
  method ExtendAllTtls(body: string) returns (out: Option<string>)
    ensures out == Rewritten(body)
  {
    hide Rewrites, Splices, Readable, IsUtf8, Contains;
    if !Contains(body, CACHE_CONTROL) { return None; }
    if !IsUtf8(body) { return None; }
    var parsed := ParseDoc(body);
    if parsed.None? || !parsed.value.root.Obj? { return None; }
    var d := parsed.value;
    ParseSound(body);
    var ok, splices := WalkRoot(d.root, |d.lead|);
    if !ok { return None; }
    ghost var spec := DocSplices(d);
    assert |splices| == |multiset(splices)| && |spec| == |multiset(spec)|;
    if splices == [] { return None; }
    KeepsOtherBytes(body);
    SortFinds(splices, spec);
    splices := Sort(splices, StartsFirst);
    out := CopySpliced(body, splices, Rewritten(body).value);
  }
}
