/** The cache-TTL rewrite (`src/cache_ttl.rs`): one walk over the body collects splices, one copy
    applies them.  The specification is the tree walk it replaced: parse the body, set `ttl` to
    `1h` on every legal breakpoint, serialise.  `ExtendTree` is that walk on parsed trees;
    `Splices` is what the byte-level walk queues; `Edited` is the syntax tree the spliced text
    turns out to be. */
module CacheTtl {
  import opened Sequences
  import opened Options
  import opened JsonText
  import opened JsonTree

  // ----- The reference: the edit on parsed trees -----

  const EXTENDED := "1h"

  /** Sets `ttl` on a `cache_control` that is an object; anything else is left alone. */
  function ExtendBreakpoint(c: Json): Json {
    if c.JObj? && !("ttl" in c.fields && c.fields["ttl"] == JStr(EXTENDED))
    then JObj(c.fields["ttl" := JStr(EXTENDED)]) else c
  }

  function ExtendBlock(b: Json): Json {
    if b.JObj? && "cache_control" in b.fields
    then JObj(b.fields["cache_control" := ExtendBreakpoint(b.fields["cache_control"])]) else b
  }

  function ExtendBlocks(j: Json): Json {
    if j.JArr? then JArr(seq(|j.items|, i requires 0 <= i < |j.items| => ExtendBlock(j.items[i]))) else j
  }

  function ExtendMessage(m: Json): Json {
    if m.JObj? && "content" in m.fields
    then JObj(m.fields["content" := ExtendBlocks(m.fields["content"])]) else m
  }

  function ExtendMessages(j: Json): Json {
    if j.JArr? then JArr(seq(|j.items|, i requires 0 <= i < |j.items| => ExtendMessage(j.items[i]))) else j
  }

  /** `fields` with the edit `f` applied under `name`, when it is there. */
  function Under(fields: map<string, Json>, name: string, f: Json -> Json): map<string, Json> {
    if name in fields then fields[name := f(fields[name])] else fields
  }

  /** The whole tree walk. */
  function ExtendTree(root: Json): Json {
    if root.JObj? then
      var a := Under(root.fields, "system", ExtendBlocks);
      var b := Under(a, "tools", ExtendBlocks);
      JObj(Under(b, "messages", ExtendMessages))
    else root
  }

  // ----- The walk -----

  /** Where the walk stands: the root object, a list of blocks or of messages, one block, one
      message, or a breakpoint (the value of a block's `cache_control`). */
  datatype Place = Root | Blocks | Messages | Block | Message | Breakpoint

  /** What the elements of an array at `p` are walked as. */
  function ElemPlace(p: Place): Option<Place> {
    match p
    case Blocks => Some(Block)
    case Messages => Some(Message)
    case _ => None
  }

  /** What the member `name` of an object at `p` is walked as. */
  function MemberPlace(p: Place, name: string): Option<Place> {
    if p.Root? && (name == "system" || name == "tools") then Some(Blocks)
    else if p.Root? && name == "messages" then Some(Messages)
    else if p.Block? && name == "cache_control" then Some(Breakpoint)
    else if p.Message? && name == "content" then Some(Blocks)
    else None
  }

  /** The reference edit at a place. */
  function ExtendAt(p: Place, j: Json): Json {
    match p
    case Root => ExtendTree(j)
    case Blocks => ExtendBlocks(j)
    case Messages => ExtendMessages(j)
    case Block => ExtendBlock(j)
    case Message => ExtendMessage(j)
    case Breakpoint => ExtendBreakpoint(j)
  }

  /** Replace `body[start..end]` by `text`; `start == end` is an insert. */
  datatype Splice = Splice(start: nat, end: nat, text: string)

  const EXTENDED_JSON := "\"1h\""
  const TTL_MEMBER := "\"ttl\":\"1h\""
  const TTL_MEMBER_AFTER := ",\"ttl\":\"1h\""

  /** A `ttl` value that already unescapes to `1h`. */
  predicate IsExtendedTtl(v: Value) {
    v.Str? && !HasLoneSurrogate(v.raw) && Decode(v.raw) == EXTENDED
  }

  /** A member that no later member with the same key hides. */
  predicate IsLast(ms: Members) {
    ms.Member? && !HasKey(ms.rest, Decode(ms.key))
  }

  /** Offset of the member after `ms`'s first, when `ms` starts at `off`. */
  function NextMember(ms: Members, off: nat): nat
    requires ms.Member?
  {
    off + HeadLen(ms) + Len(ms.value) + |ms.post| + 1
  }

  /** The splice `s`, then `more`. */
  function Before(s: Splice, more: seq<Splice>): seq<Splice> { [s] + more }

  /** The splices of the value `v` at place `p`, whose text starts at `off`, in text order and
      followed by `more`. */
  function Splices(p: Place, v: Value, off: nat, more: seq<Splice>): seq<Splice>
    decreases v
  {
    match v
    case Arr(gap, elems) =>
      if ElemPlace(p).Some? then ElemSplices(ElemPlace(p).value, elems, off + 1 + |gap|, more) else more
    case Obj(gap, members) =>
      if p.Breakpoint? then TtlSplices(gap, members, off + 1, more)
      else MemberSplices(p, members, off + 1 + |gap|, more)
    case _ => more
  }

  function ElemSplices(p: Place, es: Elems, off: nat, more: seq<Splice>): seq<Splice>
    decreases es
  {
    match es
    case NoElem => more
    case Elem(pre, value, post, rest) =>
      Splices(p, value, off + |pre|, ElemSplices(p, rest, off + |pre| + Len(value) + |post| + 1, more))
  }

  function MemberSplices(p: Place, ms: Members, off: nat, more: seq<Splice>): seq<Splice>
    decreases ms
  {
    match ms
    case NoMember => more
    case Member(_, key, _, _, value, _, rest) =>
      var child := MemberPlace(p, Decode(key));
      var later := MemberSplices(p, rest, NextMember(ms, off), more);
      if child.Some? && IsLast(ms) then Splices(child.value, value, off + HeadLen(ms), later) else later
  }

  /** The splice of one breakpoint object whose inside starts at `off`. An object with a key that
      cannot be read is not one the walk can pick members from, and is left alone. */
  function TtlSplices(gap: string, ms: Members, off: nat, more: seq<Splice>): seq<Splice> {
    if !KeysReadable(ms) then more
    else if HasKey(ms, "ttl") then ReplaceSplices(ms, off + |gap|, more)
    else if ms.NoMember? then Before(Splice(off, off, TTL_MEMBER), more)
    else InsertSplices(ms, off + |gap|, more)
  }

  /** Replace the last `ttl` value unless it already says `1h`. */
  function ReplaceSplices(ms: Members, off: nat, more: seq<Splice>): seq<Splice>
    requires HasKey(ms, "ttl")
  {
    if HasKey(ms.rest, "ttl") then ReplaceSplices(ms.rest, NextMember(ms, off), more)
    else if IsExtendedTtl(ms.value) then more
    else Before(Splice(off + HeadLen(ms), off + HeadLen(ms) + Len(ms.value), EXTENDED_JSON), more)
  }

  /** Insert a `ttl` member right after the last member's value. */
  function InsertSplices(ms: Members, off: nat, more: seq<Splice>): seq<Splice>
    requires ms.Member?
  {
    if ms.rest.Member? then InsertSplices(ms.rest, NextMember(ms, off), more)
    else
      var at := off + HeadLen(ms) + Len(ms.value);
      Before(Splice(at, at, TTL_MEMBER_AFTER), more)
  }

  // ----- The edit on syntax trees -----

  function Edited(p: Place, v: Value): Value
    decreases v
  {
    match v
    case Arr(gap, elems) =>
      if ElemPlace(p).Some? then Arr(gap, EditedElems(ElemPlace(p).value, elems)) else v
    case Obj(gap, members) =>
      if p.Breakpoint? then EditedBreakpoint(gap, members) else Obj(gap, EditedMembers(p, members))
    case _ => v
  }

  function EditedElems(p: Place, es: Elems): Elems
    decreases es
  {
    match es
    case NoElem => NoElem
    case Elem(pre, value, post, rest) => Elem(pre, Edited(p, value), post, EditedElems(p, rest))
  }

  function EditedMembers(p: Place, ms: Members): Members
    decreases ms
  {
    match ms
    case NoMember => NoMember
    case Member(pre, key, mid, sep, value, post, rest) =>
      var child := MemberPlace(p, Decode(key));
      var value' := if child.Some? && IsLast(ms) then Edited(child.value, value) else value;
      Member(pre, key, mid, sep, value', post, EditedMembers(p, rest))
  }

  function EditedBreakpoint(gap: string, ms: Members): Value {
    if !KeysReadable(ms) then Obj(gap, ms)
    else if HasKey(ms, "ttl") then Obj(gap, WithTtl(ms))
    else if ms.NoMember? then Obj("", NewTtl(gap))
    else Obj(gap, WithNewTtl(ms))
  }

  function NewTtl(post: string): Members {
    Member("", "ttl", "", "", Str(EXTENDED), post, NoMember)
  }

  function WithTtl(ms: Members): Members
    requires HasKey(ms, "ttl")
  {
    if HasKey(ms.rest, "ttl") then ms.(rest := WithTtl(ms.rest))
    else if IsExtendedTtl(ms.value) then ms
    else ms.(value := Str(EXTENDED))
  }

  function WithNewTtl(ms: Members): Members
    requires ms.Member?
  {
    if ms.rest.Member? then ms.(rest := WithNewTtl(ms.rest))
    else ms.(post := "", rest := NewTtl(ms.post))
  }

  // ----- Applying splices -----

  predicate IsSpliceText(t: string) { t == EXTENDED_JSON || t == TTL_MEMBER || t == TTL_MEMBER_AFTER }

  predicate IsAscii(c: char) { c < '\U{80}' }

  /** `out` starts with what the splice `s` makes of `text`, which starts at offset `base`. No
      splice starts or ends inside a multi-byte character. */
  predicate Applies(s: Splice, text: string, base: nat, out: string) {
    && base <= s.start <= s.end < base + |text|
    && IsAscii(text[s.start - base]) && IsAscii(text[s.end - base]) && IsSpliceText(s.text)
    && s.start - base + |s.text| <= |out|
    && out[..s.start - base] == text[..s.start - base]
    && out[s.start - base..s.start - base + |s.text|] == s.text
  }

  /** What follows the splice in `text`, and what follows its replacement in `out`. */
  function Untouched(s: Splice, text: string, base: nat): string
    requires base <= s.end <= base + |text|
  { text[s.end - base..] }

  function Copied(s: Splice, base: nat, out: string): string
    requires base <= s.start && s.start - base + |s.text| <= |out|
  { out[s.start - base + |s.text|..] }

  /** `out` is `text` with the splices applied in order: they lie inside the text, in order, with
      at least one kept byte between any two. */
  predicate Rewrites(text: string, base: nat, ss: seq<Splice>, out: string) {
    if ss == [] then out == text
    else
      var s := ss[0];
      && Applies(s, text, base, out)
      && (|ss| > 1 ==> s.end < ss[1].start)
      && Rewrites(Untouched(s, text, base), s.end, ss[1..], Copied(s, base, out))
  }

  lemma ShiftSplice(s: Splice, head: string, tail: string, off: nat, mid: nat, out: string)
    requires mid == off + |head| && Applies(s, tail, mid, out)
    ensures Applies(s, head + tail, off, head + out)
    ensures Untouched(s, head + tail, off) == Untouched(s, tail, mid)
    ensures Copied(s, off, head + out) == Copied(s, mid, out)
  {
    hide IsSpliceText, IsAscii;
    var k, m, n := s.start - off, s.start - mid, |s.text|;
    assert (head + tail)[..k] == head + tail[..m];
    assert (head + out)[..k] == head + out[..m];
    assert (head + out)[k..k + n] == out[m..m + n];
    assert (head + tail)[k] == tail[m] && (head + tail)[s.end - off] == tail[s.end - mid];
  }

  /** Bytes before the first splice are kept. */
  lemma Keep(head: string, tail: string, off: nat, mid: nat, ss: seq<Splice>, out: string)
    requires mid == off + |head| && Rewrites(tail, mid, ss, out)
    ensures Rewrites(head + tail, off, ss, head + out)
  {
    hide Applies, Untouched, Copied;
    if ss != [] { ShiftSplice(ss[0], head, tail, off, mid, out); }
  }

  lemma FirstStart(text: string, base: nat, ss: seq<Splice>, out: string)
    requires Rewrites(text, base, ss, out)
    ensures ss != [] ==> base <= ss[0].start
  {
  }

  lemma FrontSplice(s: Splice, cut: string, text: string, out: string)
    requires s.end == s.start + |cut|
    requires text != "" && IsAscii(text[0]) && (cut != "" ==> IsAscii(cut[0])) && IsSpliceText(s.text)
    ensures Applies(s, cut + text, s.start, s.text + out)
    ensures Untouched(s, cut + text, s.start) == text
    ensures Copied(s, s.start, s.text + out) == out
  {
    hide IsSpliceText, IsAscii;
    assert (cut + text)[0] == (if cut == "" then text[0] else cut[0]);
    assert (cut + text)[|cut|] == text[0];
  }

  /** A splice at the front, followed by at least one kept byte. */
  lemma Cut(s: Splice, cut: string, text: string, ss: seq<Splice>, out: string)
    requires s.end == s.start + |cut| && Rewrites(text, s.end, ss, out)
    requires ss != [] ==> s.end < ss[0].start
    requires text != "" && IsAscii(text[0]) && (cut != "" ==> IsAscii(cut[0])) && IsSpliceText(s.text)
    ensures Rewrites(cut + text, s.start, Before(s, ss), s.text + out)
  {
    hide Applies, Untouched, Copied, IsSpliceText, IsAscii;
    FrontSplice(s, cut, text, out);
    assert Before(s, ss)[1..] == ss;
  }

  /** An insert, followed by at least one kept byte. */
  lemma Insert(at: nat, ins: string, text: string, ss: seq<Splice>, out: string)
    requires Rewrites(text, at, ss, out)
    requires ss != [] ==> at < ss[0].start
    requires text != "" && IsAscii(text[0]) && IsSpliceText(ins)
    ensures Rewrites(text, at, Before(Splice(at, at, ins), ss), ins + out)
  {
    hide IsSpliceText, Before, Rewrites;
    Cut(Splice(at, at, ins), "", text, ss, out);
    EmptyLeft(text);
  }

  lemma SpaceFirst(ws: string, t: string)
    requires AllSpace(ws) && t != "" && IsAscii(t[0])
    ensures ws + t != "" && IsAscii((ws + t)[0])
  {
    if ws != "" { assert (ws + t)[0] == ws[0]; }
  }

  lemma KeepOpen(open: string, gap: string, tail: string, off: nat, mid: nat, ss: seq<Splice>, out: string)
    requires |open| == 1 && mid == off + 1 + |gap| && Rewrites(tail, mid, ss, out)
    ensures Rewrites(open + (gap + tail), off, ss, open + (gap + out))
  {
    hide Rewrites;
    Keep(gap, tail, off + 1, mid, ss, out);
    Keep(open, gap + tail, off, off + 1, ss, gap + out);
  }

  lemma KeepValue(v: Value, off: nat, end: nat, tail: string, ss: seq<Splice>, out: string)
    requires end == off + Len(v) && Rewrites(tail, end, ss, out)
    ensures Rewrites(Put(v, tail), off, ss, Put(v, out))
  {
    hide Rewrites, Len, Put;
    PutIsRender(v, tail);
    PutIsRender(v, out);
    Keep(Render(v), tail, off, end, ss, out);
  }

  lemma KeepHead(m: Members, off: nat, at: nat, tail: string, ss: seq<Splice>, out: string)
    requires m.Member? && at == off + HeadLen(m) && Rewrites(tail, at, ss, out)
    ensures Rewrites(PutHead(m, tail), off, ss, PutHead(m, out))
  {
    hide Rewrites, PutHead;
    PutHeadIsText(m, "", tail);
    PutHeadIsText(m, "", out);
    EmptyLeft(tail);
    EmptyLeft(out);
    Keep(PutHead(m, ""), tail, off, at, ss, out);
  }

  /** What follows a member's value: its whitespace and, after a comma, the members after it. */
  lemma KeepMore(post: string, rest: Members, off: nat, tail: string, ss: seq<Splice>, rest': Members, out: string)
    requires rest.Member? <==> rest'.Member?
    requires if rest.Member? then Rewrites(PutMembers(rest, tail), off + |post| + 1, ss, PutMembers(rest', out))
             else Rewrites(tail, off + |post|, ss, out)
    ensures Rewrites(post + PutMoreMembers(rest, tail), off, ss, post + PutMoreMembers(rest', out))
  {
    hide Rewrites, PutMembers;
    var mid := off + |post|;
    if rest.Member? {
      Keep(",", PutMembers(rest, tail), mid, off + |post| + 1, ss, PutMembers(rest', out));
    }
    Keep(post, PutMoreMembers(rest, tail), off, mid, ss, PutMoreMembers(rest', out));
  }

  lemma KeepMembers(ms: Members, off: nat, end: nat, t: string, ss: seq<Splice>, o: string)
    requires end == off + LenMembers(ms) && Rewrites(t, end, ss, o)
    ensures Rewrites(PutMembers(ms, t), off, ss, PutMembers(ms, o))
  {
    hide Rewrites, PutMembers, LenMembers;
    PutMembersIsRender(ms, t);
    PutMembersIsRender(ms, o);
    Keep(PutMembers(ms, ""), t, off, end, ss, o);
  }

  /** A member no splice touches, before members `rest'` that replace its successors. */
  lemma KeepMember(ms: Members, off: nat, next: nat, tail: string, ss: seq<Splice>, rest': Members, out: string)
    requires ms.Member? && ms.rest.Member? && rest'.Member?
    requires next == NextMember(ms, off)
    requires Rewrites(PutMembers(ms.rest, tail), next, ss, PutMembers(rest', out))
    ensures Rewrites(PutMembers(ms, tail), off, ss, PutMembers(ms.(rest := rest'), out))
  {
    hide Rewrites, Put, Len;
    var at := off + HeadLen(ms);
    var end := at + Len(ms.value);
    var a, b := ms.post + PutMoreMembers(ms.rest, tail), ms.post + PutMoreMembers(rest', out);
    KeepMore(ms.post, ms.rest, end, tail, ss, rest', out);
    KeepValue(ms.value, at, end, a, ss, b);
    KeepHead(ms, off, at, Put(ms.value, a), ss, Put(ms.value, b));
    SameHead(ms, ms.(rest := rest'), Put(ms.value, b));
  }

  /** Splicing a value's text gives the text of the edited value. */
  lemma {:induction false} SpliceValue(p: Place, v: Value, off: nat, end: nat, tail: string, more: seq<Splice>, out: string)
    requires WellFormed(v)
    requires end == off + Len(v) && Rewrites(tail, end, more, out)
    ensures Rewrites(Put(v, tail), off, Splices(p, v, off, more), Put(Edited(p, v), out))
    decreases v, 1
  {
    hide Rewrites, TtlSplices, EditedBreakpoint, MemberSplices, EditedMembers, ElemSplices, EditedElems;
    if v.Arr? && ElemPlace(p).Some? {
      SpliceArr(ElemPlace(p).value, v, off, end, tail, more, out);
    } else if v.Obj? && p.Breakpoint? {
      SpliceBreakpoint(v.gap, v.members, off, end, tail, more, out);
    } else if v.Obj? {
      SpliceObj(p, v, off, end, tail, more, out);
    } else {
      KeepValue(v, off, end, tail, more, out);
    }
  }

  lemma {:induction false} SpliceArr(q: Place, v: Value, off: nat, end: nat, tail: string, more: seq<Splice>, out: string)
    requires WellFormed(v)
    requires v.Arr? && end == off + Len(v) && Rewrites(tail, end, more, out)
    ensures Rewrites(Put(v, tail), off, ElemSplices(q, v.elems, off + 1 + |v.gap|, more),
                     Put(Arr(v.gap, EditedElems(q, v.elems)), out))
    decreases v, 0
  {
    hide Rewrites, ElemSplices, EditedElems, PutElems, LenElems;
    var at := off + 1 + |v.gap|;
    var close := at + LenElems(v.elems);
    Keep("]", tail, close, end, more, out);
    SpliceElems(q, v.elems, at, close, "]" + tail, more, "]" + out);
    KeepOpen("[", v.gap, PutElems(v.elems, "]" + tail), off, at, ElemSplices(q, v.elems, at, more),
             PutElems(EditedElems(q, v.elems), "]" + out));
  }

  lemma {:induction false} SpliceObj(p: Place, v: Value, off: nat, end: nat, tail: string, more: seq<Splice>, out: string)
    requires WellFormed(v)
    requires v.Obj? && end == off + Len(v) && Rewrites(tail, end, more, out)
    ensures Rewrites(Put(v, tail), off, MemberSplices(p, v.members, off + 1 + |v.gap|, more),
                     Put(Obj(v.gap, EditedMembers(p, v.members)), out))
    decreases v, 0
  {
    hide Rewrites, MemberSplices, EditedMembers, PutMembers, LenMembers;
    var at := off + 1 + |v.gap|;
    var close := at + LenMembers(v.members);
    Keep("}", tail, close, end, more, out);
    SpliceMembers(p, v.members, at, close, "}" + tail, more, "}" + out);
    KeepOpen("{", v.gap, PutMembers(v.members, "}" + tail), off, at, MemberSplices(p, v.members, at, more),
             PutMembers(EditedMembers(p, v.members), "}" + out));
  }

  lemma {:induction false} SpliceElems(p: Place, es: Elems, off: nat, end: nat, tail: string, more: seq<Splice>, out: string)
    requires WellFormedElems(es)
    requires end == off + LenElems(es) && Rewrites(tail, end, more, out)
    ensures Rewrites(PutElems(es, tail), off, ElemSplices(p, es, off, more), PutElems(EditedElems(p, es), out))
    decreases es, 1
  {
    hide Rewrites, Splices, Edited, Put, Len;
    if es.Elem? {
      var at := off + |es.pre|;
      var after := at + Len(es.value);
      var next := off + |es.pre| + Len(es.value) + |es.post| + 1;
      var later := ElemSplices(p, es.rest, next, more);
      var es' := EditedElems(p, es.rest);
      if es.rest.Elem? {
        SpliceElems(p, es.rest, next, end, tail, more, out);
        Keep(",", PutElems(es.rest, tail), after + |es.post|, next, later, PutElems(es', out));
      }
      SpliceElem(p, es, off, at, after, PutMoreElems(es.rest, tail), later, PutMoreElems(es', out));
    }
  }

  lemma {:induction false} SpliceElem(p: Place, es: Elems, off: nat, at: nat, after: nat, t: string, later: seq<Splice>, o: string)
    requires es.Elem? && WellFormed(es.value)
    requires es.Elem? && at == off + |es.pre| && after == at + Len(es.value)
    requires Rewrites(t, after + |es.post|, later, o)
    ensures Rewrites(es.pre + Put(es.value, es.post + t), off, Splices(p, es.value, at, later),
                     es.pre + Put(Edited(p, es.value), es.post + o))
    decreases es, 0
  {
    hide Rewrites, Splices, Edited, Put, Len;
    Keep(es.post, t, after, after + |es.post|, later, o);
    SpliceValue(p, es.value, at, after, es.post + t, later, es.post + o);
    Keep(es.pre, Put(es.value, es.post + t), off, at, Splices(p, es.value, at, later),
         Put(Edited(p, es.value), es.post + o));
  }

  lemma {:induction false} SpliceMembers(p: Place, ms: Members, off: nat, end: nat, tail: string, more: seq<Splice>, out: string)
    requires WellFormedMembers(ms)
    requires end == off + LenMembers(ms) && Rewrites(tail, end, more, out)
    ensures Rewrites(PutMembers(ms, tail), off, MemberSplices(p, ms, off, more), PutMembers(EditedMembers(p, ms), out))
    decreases ms, 1
  {
    hide Rewrites, Splices, Edited, MemberPlace, Decode, IsLast, Put, Len;
    if ms.Member? {
      var after := off + HeadLen(ms) + Len(ms.value);
      var next := NextMember(ms, off);
      var later := MemberSplices(p, ms.rest, next, more);
      var ms' := EditedMembers(p, ms.rest);
      if ms.rest.Member? {
        SpliceMembers(p, ms.rest, next, end, tail, more, out);
      }
      KeepMore(ms.post, ms.rest, after, tail, later, ms', out);
      var o := ms.post + PutMoreMembers(ms', out);
      SpliceMember(p, ms, off, off + HeadLen(ms), after, ms.post + PutMoreMembers(ms.rest, tail), later, o);
      var done := EditedMembers(p, ms);
      SameHead(ms, done, Put(done.value, o));
    }
  }

  /** One member: its value is spliced when it is the last occurrence of a walked key. */
  lemma {:induction false} SpliceMember(p: Place, ms: Members, off: nat, at: nat, after: nat, t: string, later: seq<Splice>, o: string)
    requires ms.Member? && WellFormed(ms.value)
    requires ms.Member? && at == off + HeadLen(ms) && after == at + Len(ms.value)
    requires Rewrites(t, after, later, o)
    ensures var child := MemberPlace(p, Decode(ms.key));
      if child.Some? && IsLast(ms) then
        Rewrites(PutHead(ms, Put(ms.value, t)), off, Splices(child.value, ms.value, at, later),
                 PutHead(ms, Put(Edited(child.value, ms.value), o)))
      else Rewrites(PutHead(ms, Put(ms.value, t)), off, later, PutHead(ms, Put(ms.value, o)))
    decreases ms, 0
  {
    hide Rewrites, Splices, Edited, MemberPlace, Decode, IsLast, Put, PutHead, Len;
    var child := MemberPlace(p, Decode(ms.key));
    if child.Some? && IsLast(ms) {
      SpliceValue(child.value, ms.value, at, after, t, later, o);
      KeepHead(ms, off, at, Put(ms.value, t), Splices(child.value, ms.value, at, later),
               Put(Edited(child.value, ms.value), o));
    } else {
      KeepValue(ms.value, at, after, t, later, o);
      KeepHead(ms, off, at, Put(ms.value, t), later, Put(ms.value, o));
    }
  }

  lemma SpliceBreakpoint(gap: string, ms: Members, off: nat, end: nat, tail: string, more: seq<Splice>, out: string)
    requires WellFormed(Obj(gap, ms))
    requires end == off + Len(Obj(gap, ms)) && Rewrites(tail, end, more, out)
    ensures Rewrites(Put(Obj(gap, ms), tail), off, TtlSplices(gap, ms, off + 1, more),
                     Put(EditedBreakpoint(gap, ms), out))
  {
    hide Rewrites, ReplaceSplices, InsertSplices, WithTtl, WithNewTtl, KeysReadable, HasKey, PutMembers, LenMembers;
    if !KeysReadable(ms) {
      KeepValue(Obj(gap, ms), off, end, tail, more, out);
    } else if ms.NoMember? && !HasKey(ms, "ttl") {
      SpliceNew(gap, off, end, tail, more, out);
    } else {
      var at := off + 1 + |gap|;
      var close := at + LenMembers(ms);
      var t, o := "}" + tail, "}" + out;
      Keep("}", tail, close, end, more, out);
      FirstStart(tail, end, more, out);
      if HasKey(ms, "ttl") {
        SpliceReplace(ms, at, close, t, more, o);
        KeepOpen("{", gap, PutMembers(ms, t), off, at, ReplaceSplices(ms, at, more), PutMembers(WithTtl(ms), o));
      } else {
        SpliceInsert(ms, at, close, t, more, o);
        KeepOpen("{", gap, PutMembers(ms, t), off, at, InsertSplices(ms, at, more), PutMembers(WithNewTtl(ms), o));
      }
    }
  }

  lemma SpliceNew(gap: string, off: nat, end: nat, tail: string, more: seq<Splice>, out: string)
    requires AllSpace(gap)
    requires end == off + Len(Obj(gap, NoMember)) && Rewrites(tail, end, more, out)
    ensures Rewrites(Put(Obj(gap, NoMember), tail), off, Before(Splice(off + 1, off + 1, TTL_MEMBER), more),
                     Put(Obj("", NewTtl(gap)), out))
  {
    hide Before, Rewrites, NewTtl, IsSpliceText, PutMembers, AllSpace;
    var at, close := off + 1, off + 1 + |gap|;
    var t, o := "}" + tail, "}" + out;
    FirstStart(tail, end, more, out);
    Keep("}", tail, close, end, more, out);
    Keep(gap, t, at, close, more, o);
    SpaceFirst(gap, t);
    NewTtlText(gap, o);
    InsertTtl(at, gap + t, more, gap + o);
    Keep("{", gap + t, off, at, Before(Splice(at, at, TTL_MEMBER), more), TTL_MEMBER + (gap + o));
    EmptyLeft(PutMembers(NewTtl(gap), o));
    EmptySpaced(gap, t);
  }

  lemma InsertTtl(at: nat, text: string, ss: seq<Splice>, out: string)
    requires Rewrites(text, at, ss, out) && text != "" && IsAscii(text[0]) && (ss != [] ==> at < ss[0].start)
    ensures Rewrites(text, at, Before(Splice(at, at, TTL_MEMBER), ss), TTL_MEMBER + out)
  {
    hide Rewrites;
    Insert(at, TTL_MEMBER, text, ss, out);
  }

  lemma EmptySpaced(gap: string, t: string)
    ensures gap + PutMembers(NoMember, t) == gap + t
  {
  }

  lemma NewValueText(b: string)
    ensures Put(Str(EXTENDED), b) == EXTENDED_JSON + b
  {
  }

  lemma NewTtlText(post: string, o: string)
    ensures PutMembers(NewTtl(post), o) == TTL_MEMBER + (post + o)
    ensures "," + PutMembers(NewTtl(post), o) == TTL_MEMBER_AFTER + (post + o)
  {
    var m := NewTtl(post);
    var x := post + o;
    assert PutMembers(m, o) == PutHead(m, Put(Str(EXTENDED), x));
    assert PutHead(m, Put(Str(EXTENDED), x)) == TTL_MEMBER + x;
    assert "," + (TTL_MEMBER + x) == TTL_MEMBER_AFTER + x;
  }

  lemma {:induction false} SpliceReplace(ms: Members, off: nat, end: nat, t: string, more: seq<Splice>, o: string)
    requires WellFormedMembers(ms) && t != "" && IsAscii(t[0])
    requires HasKey(ms, "ttl") && end == off + LenMembers(ms) && Rewrites(t, end, more, o)
    requires more != [] ==> end < more[0].start
    ensures Rewrites(PutMembers(ms, t), off, ReplaceSplices(ms, off, more), PutMembers(WithTtl(ms), o))
    decreases ms
  {
    hide IsStrBody, Rewrites, Decode, IsExtendedTtl, Put, PutMembers;
    if HasKey(ms.rest, "ttl") {
      var next := NextMember(ms, off);
      SpliceReplace(ms.rest, next, end, t, more, o);
      KeepMember(ms, off, next, t, ReplaceSplices(ms.rest, next, more), WithTtl(ms.rest), o);
    } else if IsExtendedTtl(ms.value) {
      KeepMembers(ms, off, end, t, more, o);
    } else {
      ReplaceHere(ms, off, end, t, more, o);
    }
  }

  lemma KeepRest(ms: Members, off: nat, after: nat, end: nat, t: string, ss: seq<Splice>, o: string)
    requires ms.Member? && after == off + HeadLen(ms) + Len(ms.value)
    requires end == off + LenMembers(ms) && Rewrites(t, end, ss, o)
    ensures Rewrites(ms.post + PutMoreMembers(ms.rest, t), after, ss, ms.post + PutMoreMembers(ms.rest, o))
  {
    hide Rewrites, Put, Len;
    if ms.rest.Member? { KeepMembers(ms.rest, after + |ms.post| + 1, end, t, ss, o); }
    KeepMore(ms.post, ms.rest, after, t, ss, ms.rest, o);
  }

  lemma RenderFirst(v: Value)
    requires WellFormed(v)
    ensures Render(v) != "" ==> IsAscii(Render(v)[0])
  {
    if v.Bare? { assert Render(v)[0] == v.tok[0]; }
  }

  lemma ReplaceHere(ms: Members, off: nat, end: nat, t: string, more: seq<Splice>, o: string)
    requires WellFormedMembers(ms) && t != "" && IsAscii(t[0])
    requires ms.Member? && end == off + LenMembers(ms) && Rewrites(t, end, more, o)
    requires more != [] ==> end < more[0].start
    ensures var at := off + HeadLen(ms);
      Rewrites(PutMembers(ms, t), off, Before(Splice(at, at + Len(ms.value), EXTENDED_JSON), more),
               PutMembers(ms.(value := Str(EXTENDED)), o))
  {
    hide IsStrBody, Before, Rewrites, Put, Len;
    var at := off + HeadLen(ms);
    var after := at + Len(ms.value);
    var a, b := ms.post + PutMoreMembers(ms.rest, t), ms.post + PutMoreMembers(ms.rest, o);
    KeepRest(ms, off, after, end, t, more, o);
    var s := Splice(at, after, EXTENDED_JSON);
    PutIsRender(ms.value, a);
    SpaceFirst(ms.post, PutMoreMembers(ms.rest, t));
    RenderFirst(ms.value);
    Cut(s, Render(ms.value), a, more, b);
    NewValueText(b);
    KeepHead(ms, off, at, Put(ms.value, a), Before(s, more), Put(Str(EXTENDED), b));
    SameHead(ms, ms.(value := Str(EXTENDED)), Put(Str(EXTENDED), b));
  }

  lemma {:induction false} SpliceInsert(ms: Members, off: nat, end: nat, t: string, more: seq<Splice>, o: string)
    requires WellFormedMembers(ms) && t != "" && IsAscii(t[0])
    requires ms.Member? && end == off + LenMembers(ms) && Rewrites(t, end, more, o)
    requires more != [] ==> end < more[0].start
    ensures Rewrites(PutMembers(ms, t), off, InsertSplices(ms, off, more), PutMembers(WithNewTtl(ms), o))
    decreases ms
  {
    hide IsStrBody, Rewrites, Put, PutMembers;
    if ms.rest.Member? {
      var next := NextMember(ms, off);
      SpliceInsert(ms.rest, next, end, t, more, o);
      KeepMember(ms, off, next, t, InsertSplices(ms.rest, next, more), WithNewTtl(ms.rest), o);
    } else {
      InsertHere(ms, off, end, t, more, o);
    }
  }

  lemma InsertHere(ms: Members, off: nat, end: nat, t: string, more: seq<Splice>, o: string)
    requires WellFormedMembers(ms) && t != "" && IsAscii(t[0])
    requires ms.Member? && ms.rest.NoMember? && end == off + LenMembers(ms) && Rewrites(t, end, more, o)
    requires more != [] ==> end < more[0].start
    ensures var at := off + HeadLen(ms) + Len(ms.value);
      Rewrites(PutMembers(ms, t), off, Before(Splice(at, at, TTL_MEMBER_AFTER), more),
               PutMembers(ms.(post := "", rest := NewTtl(ms.post)), o))
  {
    hide Before, Rewrites, Put, Len, NewTtl;
    InsertAfter(ms, off, end, t, more, o, TTL_MEMBER_AFTER);
    NewTtlText(ms.post, o);
    var b := "," + PutMembers(NewTtl(ms.post), o);
    EmptyLeft(b);
    SameHead(ms, ms.(post := "", rest := NewTtl(ms.post)), Put(ms.value, b));
  }

  lemma InsertAfter(ms: Members, off: nat, end: nat, t: string, more: seq<Splice>, o: string, ins: string)
    requires ms.Member? && AllSpace(ms.post) && t != "" && IsAscii(t[0]) && IsSpliceText(ins)
    requires ms.Member? && ms.rest.NoMember? && end == off + LenMembers(ms) && Rewrites(t, end, more, o)
    requires more != [] ==> end < more[0].start
    ensures var at := off + HeadLen(ms) + Len(ms.value);
      Rewrites(PutHead(ms, Put(ms.value, ms.post + t)), off, Before(Splice(at, at, ins), more),
               PutHead(ms, Put(ms.value, ins + (ms.post + o))))
  {
    hide IsSpliceText, Before, Rewrites, Put, Len, PutHead;
    var at := off + HeadLen(ms);
    var after := at + Len(ms.value);
    var a, b := ms.post + t, ins + (ms.post + o);
    var ss := Before(Splice(after, after, ins), more);
    Keep(ms.post, t, after, end, more, o);
    SpaceFirst(ms.post, t);
    Insert(after, ins, a, more, ms.post + o);
    KeepValue(ms.value, at, after, a, ss, b);
    KeepHead(ms, off, at, Put(ms.value, a), ss, Put(ms.value, b));
  }
}
