/** `extend_all_ttls` on bytes: what it returns for every body, and the theorems that tie the
    result to the tree walk. */
module CacheTtlRewrite {
  import opened Options
  import opened JsonText
  import opened JsonTree
  import opened CacheTtl
  import opened CacheTtlMeaning

  const CACHE_CONTROL := "\"cache_control\""

  /** Whether some window of the body is `part`. */
  predicate Contains(body: string, part: string) {
    |body| >= |part| && (body[..|part|] == part || (body != "" && Contains(body[1..], part)))
  }

  /** Whether a value that is not walked into can be read where the walk looks at its type: a string is
      decoded there and so are an object's keys, and half a surrogate pair is a parse error. */
  predicate IsPassable(v: Value) {
    (v.Str? ==> !HasLoneSurrogate(v.raw)) && (v.Obj? ==> KeysReadable(v.members))
  }

  /** Whether the walk can read all it has to decode: the keys it matches, and what stands in a list or
      as an element of one. What it skips without looking is not read. */
  predicate Readable(p: Place, v: Value)
    decreases v
  {
    match v
    case Bare(_) => true
    case Str(_) => p.Root? || p.Breakpoint? || IsPassable(v)
    case Arr(_, elems) => ElemPlace(p).Some? ==> ReadableElems(ElemPlace(p).value, elems)
    case Obj(_, members) =>
      if ElemPlace(p).Some? then IsPassable(v) else p.Breakpoint? || ReadableMembers(p, members)
  }

  predicate ReadableElems(p: Place, es: Elems)
    decreases es
  {
    es.Elem? ==> Readable(p, es.value) && ReadableElems(p, es.rest)
  }

  predicate ReadableMembers(p: Place, ms: Members)
    decreases ms
  {
    ms.Member? ==>
      && !HasLoneSurrogate(ms.key)
      && (MemberPlace(p, Decode(ms.key)).Some? ==> Readable(MemberPlace(p, Decode(ms.key)).value, ms.value))
      && ReadableMembers(p, ms.rest)
  }

  /** The splices of a whole document. */
  function DocSplices(d: Doc): seq<Splice> { Splices(Root, d.root, |d.lead|, []) }

  function EditedDoc(d: Doc): Doc { d.(root := Edited(Root, d.root)) }

  /** Whether the body gets past the checks that stand before the first splice. */
  predicate Walked(body: string) {
    && Contains(body, CACHE_CONTROL) && IsUtf8(body)
    && ParseDoc(body).Some?
    && var root := ParseDoc(body).value.root; root.Obj? && Readable(Root, root)
  }

  /** What the rewrite of `body` is: the text of the edited syntax tree, when there is an edit. */
  function Rewritten(body: string): Option<string> {
    if Walked(body) && DocSplices(ParseDoc(body).value) != []
    then Some(RenderDoc(EditedDoc(ParseDoc(body).value))) else None
  }

  // ----- The splices make that text out of the body -----

  lemma DocRewrites(d: Doc)
    requires WellFormedDoc(d)
    ensures Rewrites(RenderDoc(d), 0, DocSplices(d), RenderDoc(EditedDoc(d)))
  {
    var at := |d.lead|;
    var end := at + Len(d.root);
    assert Rewrites(d.trail, end, [], d.trail);
    hide Rewrites, Splices, Edited, Put, Len;
    SpliceValue(Root, d.root, at, end, d.trail, [], d.trail);
    Keep(d.lead, Put(d.root, d.trail), 0, at, DocSplices(d), Put(Edited(Root, d.root), d.trail));
  }

  /** The splices are in bounds, in order, and apart, so their starts are distinct. */
  lemma {:induction false} SplicesApart(text: string, base: nat, ss: seq<Splice>, out: string)
    requires Rewrites(text, base, ss, out)
    ensures forall i :: 0 <= i < |ss| ==> base <= ss[i].start <= ss[i].end < base + |text|
    ensures forall i, j :: 0 <= i < j < |ss| ==> ss[i].end < ss[j].start
    decreases |ss|
  {
    if ss != [] {
      var s, rest := ss[0], ss[1..];
      SplicesApart(Untouched(s, text, base), s.end, rest, Copied(s, base, out));
      hide Rewrites;
      assert |ss| > 1 ==> rest[0] == ss[1];
      forall i | 0 < i < |ss|
        ensures s.end <= ss[i].start <= ss[i].end < base + |text| && s.end < ss[i].start
      {
        assert ss[i] == rest[i - 1];
      }
      forall i, j | 0 < i < j < |ss| ensures ss[i].end < ss[j].start
      {
        assert ss[i] == rest[i - 1] && ss[j] == rest[j - 1];
      }
    }
  }

  /** Bytes gained over all splices. */
  function Gain(ss: seq<Splice>): int {
    if ss == [] then 0 else |ss[0].text| - (ss[0].end - ss[0].start) + Gain(ss[1..])
  }

  /** The length of the output is exact. */
  lemma {:induction false} RewriteLength(text: string, base: nat, ss: seq<Splice>, out: string)
    requires Rewrites(text, base, ss, out)
    ensures |out| == |text| + Gain(ss)
    decreases |ss|
  {
    if ss != [] {
      var s := ss[0];
      RewriteLength(Untouched(s, text, base), s.end, ss[1..], Copied(s, base, out));
    }
  }

  lemma SpliceTextUtf8(t: string)
    requires IsSpliceText(t)
    ensures IsUtf8(t)
  {
    hide IsUtf8;
    assert forall i :: 0 <= i < |t| ==> t[i] < '\U{80}';
    Utf8Ascii(t);
  }

  /** Splices of ASCII text at character boundaries keep a UTF-8 text UTF-8. */
  lemma {:induction false} RewriteUtf8(text: string, base: nat, ss: seq<Splice>, out: string)
    requires Rewrites(text, base, ss, out) && IsUtf8(text)
    ensures IsUtf8(out)
    decreases |ss|
  {
    hide IsUtf8, IsSpliceText;
    if ss != [] {
      var s := ss[0];
      var k, m := s.start - base, s.end - base;
      var a, rest, tail := text[..k], Untouched(s, text, base), Copied(s, base, out);
      assert text == a + text[k..];
      Utf8Cut(a, text[k..]);
      assert text == text[..m] + rest;
      Utf8Cut(text[..m], rest);
      RewriteUtf8(rest, s.end, ss[1..], tail);
      SpliceTextUtf8(s.text);
      Utf8Concat(s.text, tail);
      Utf8Concat(a, s.text + tail);
      Front(s, text, base, out);
    }
  }

  /** The one text the splices make. */
  lemma {:induction false} RewriteUnique(text: string, base: nat, ss: seq<Splice>, a: string, b: string)
    requires Rewrites(text, base, ss, a) && Rewrites(text, base, ss, b)
    ensures a == b
    decreases |ss|
  {
    if ss != [] {
      var s := ss[0];
      RewriteUnique(Untouched(s, text, base), s.end, ss[1..], Copied(s, base, a), Copied(s, base, b));
      Front(s, text, base, a);
      Front(s, text, base, b);
    }
  }

  lemma Front(s: Splice, text: string, base: nat, out: string)
    requires Applies(s, text, base, out)
    ensures out == text[..s.start - base] + (s.text + Copied(s, base, out))
  {
  }

  // ----- The theorems -----

  /** The tree walk the rewrite replaced: parse in full, edit, and answer the edited tree. */
  function Reference(body: string): Option<Json> {
    if !Contains(body, CACHE_CONTROL) || !IsUtf8(body) then None else
    match ParseDoc(body)
    case None => None
    case Some(d) =>
      var tree := Tree(d.root);
      if !Accepted(d.root) || !tree.JObj? || ExtendTree(tree) == tree then None else Some(ExtendTree(tree))
  }

  lemma {:induction false} AcceptedReadable(p: Place, v: Value)
    requires Accepted(v)
    ensures Readable(p, v)
    decreases v
  {
    match v
    case Arr(_, elems) => if ElemPlace(p).Some? { AcceptedReadableElems(ElemPlace(p).value, elems); }
    case Obj(_, members) =>
      AcceptedReadableMembers(p, members);
      AcceptedKeys(members);
    case _ =>
  }

  lemma {:induction false} AcceptedReadableElems(p: Place, es: Elems)
    requires AcceptedElems(es)
    ensures ReadableElems(p, es)
    decreases es
  {
    if es.Elem? {
      AcceptedReadable(p, es.value);
      AcceptedReadableElems(p, es.rest);
    }
  }

  lemma {:induction false} AcceptedReadableMembers(p: Place, ms: Members)
    requires AcceptedMembers(ms)
    ensures ReadableMembers(p, ms)
    decreases ms
  {
    hide MemberPlace, Decode, HasLoneSurrogate;
    if ms.Member? {
      var child := MemberPlace(p, Decode(ms.key));
      if child.Some? { AcceptedReadable(child.value, ms.value); }
      AcceptedReadableMembers(p, ms.rest);
    }
  }

  /** What is written parses to the edited document, is UTF-8 when the body is, and queues no
      further splice. */
  lemma EditedDocParses(d: Doc)
    requires WellFormedDoc(d)
    ensures ParseDoc(RenderDoc(EditedDoc(d))) == Some(EditedDoc(d))
    ensures IsUtf8(RenderDoc(d)) ==> IsUtf8(RenderDoc(EditedDoc(d)))
    ensures DocSplices(EditedDoc(d)) == []
  {
    hide IsUtf8, Rewrites, Edited, Splices, Edits;
    EditedWellFormed(Root, d.root);
    ParseComplete(EditedDoc(d));
    DocRewrites(d);
    if IsUtf8(RenderDoc(d)) { RewriteUtf8(RenderDoc(d), 0, DocSplices(d), RenderDoc(EditedDoc(d))); }
    EditedIsDone(Root, d.root);
    SpliceCount(Root, Edited(Root, d.root), |d.lead|, []);
  }

  /** The rewrite answers exactly when the tree walk does, and its output parses to the tree the
      tree walk answers. The premise excludes only bodies that a full parse refuses and the
      walk's skip does not. */
  lemma MatchesTreeWalk(body: string)
    requires ParseDoc(body).Some? ==> Accepted(ParseDoc(body).value.root)
    ensures Rewritten(body).Some? <==> Reference(body).Some?
    ensures Rewritten(body).Some? ==>
      var out := Rewritten(body).value;
      && IsUtf8(out) && ParseDoc(out).Some?
      && Tree(ParseDoc(out).value.root) == Reference(body).value
  {
    hide IsUtf8, Contains, Edited, Splices, Edits, ExtendTree;
    if ParseDoc(body).Some? {
      var d := ParseDoc(body).value;
      ParseSound(body);
      AcceptedReadable(Root, d.root);
      SpliceCount(Root, d.root, |d.lead|, []);
      NoEdits(Root, d.root);
      EditedDocParses(d);
      EditedMeaning(Root, d.root);
    }
  }

  /** Outside the splices every byte of the body is kept, for every body that is rewritten. */
  lemma KeepsOtherBytes(body: string)
    requires Rewritten(body).Some?
    ensures var ss := DocSplices(ParseDoc(body).value);
      && Rewrites(body, 0, ss, Rewritten(body).value)
      && |Rewritten(body).value| == |body| + Gain(ss)
      && (forall i :: 0 <= i < |ss| ==> ss[i].start <= ss[i].end < |body|)
      && (forall i, j :: 0 <= i < j < |ss| ==> ss[i].end < ss[j].start)
  {
    hide Rewrites, Edited, Splices, Gain;
    var d := ParseDoc(body).value;
    ParseSound(body);
    DocRewrites(d);
    RewriteLength(body, 0, DocSplices(d), Rewritten(body).value);
    SplicesApart(body, 0, DocSplices(d), Rewritten(body).value);
  }

  /** Rewriting a rewritten body changes nothing. */
  lemma RewriteTwice(body: string)
    requires Rewritten(body).Some?
    ensures Rewritten(Rewritten(body).value) == None
  {
    hide IsUtf8, Contains, Edited, Splices;
    ParseSound(body);
    EditedDocParses(ParseDoc(body).value);
  }
}
