/** Which strings of a body the cache-TTL walk decodes (`src/cache_ttl.rs`): half a surrogate pair in one
    of them makes it give up, and anywhere else it does not. */
module CacheTtlReads {
  import opened Options
  import opened JsonText
  import opened JsonTree
  import opened CacheTtl
  import opened CacheTtlRewrite

  /** The name of the member searched for stands somewhere in the body. */
  lemma {:induction false} ContainsIff(body: string, part: string)
    ensures Contains(body, part) <==> exists k: nat :: StandsAt(body, part, k)
    decreases |body|
  {
    if |body| >= |part| {
      if body[..|part|] == part {
        assert StandsAt(body, part, 0);
      } else if body != "" {
        ContainsIff(body[1..], part);
        if k: nat :| StandsAt(body[1..], part, k) { LaterStands(body, part, k + 1); }
        if k: nat :| StandsAt(body, part, k) { LaterStands(body, part, k); }
      }
    }
  }

  predicate StandsAt(body: string, part: string, k: nat) { k + |part| <= |body| && body[k..k + |part|] == part }

  lemma LaterStands(body: string, part: string, k: nat)
    requires body != "" && k > 0
    ensures StandsAt(body, part, k) <==> StandsAt(body[1..], part, k - 1)
  {
    if k + |part| <= |body| { assert body[k..k + |part|] == body[1..][k - 1..k - 1 + |part|]; }
  }

  /** A list of blocks or of messages. */
  predicate IsList(p: Place) { p == Blocks || p == Messages }

  /** The walk comes to `v` at place `p` and decodes the string body `s` there: a string in a list or in its
      place, a key of an object it looks into or that stands where a list should, and what it decodes in
      the elements and in the members it walks into. */
  predicate Decodes(p: Place, v: Value, s: string)
    decreases v, 0
  {
    match v
    case Bare(_) => false
    case Str(raw) => s == raw && p != Root && p != Breakpoint
    case Arr(_, elems) => IsList(p) && InElems(if p == Blocks then Block else Message, elems, s)
    case Obj(_, members) => p != Breakpoint && InMembers(p, members, s)
  }

  predicate InElems(p: Place, es: Elems, s: string)
    decreases es
  {
    es.Elem? && (Decodes(p, es.value, s) || InElems(p, es.rest, s))
  }

  predicate InMembers(p: Place, ms: Members, s: string)
    decreases ms
  {
    ms.Member? && (ms.key == s || InMember(p, Decode(ms.key), ms.value, s) || InMembers(p, ms.rest, s))
  }

  predicate InMember(p: Place, name: string, v: Value, s: string)
    decreases v, 1
  {
    match p
    case Root => (name in {"system", "tools"} && Decodes(Blocks, v, s)) || (name == "messages" && Decodes(Messages, v, s))
    case Message => name == "content" && Decodes(Blocks, v, s)
    case Block => name == "cache_control" && Decodes(Breakpoint, v, s)
    case _ => false
  }

  /** Nothing that is decoded is half a surrogate pair. */
  ghost predicate IsClear(p: Place, v: Value) { forall s :: Decodes(p, v, s) ==> !HasLoneSurrogate(s) }

  lemma {:induction false} ReadableIff(p: Place, v: Value)
    ensures Readable(p, v) <==> IsClear(p, v)
    decreases v, 2
  {
    hide HasLoneSurrogate;
    match v
    case Bare(_) =>
    case Str(raw) => if p != Root && p != Breakpoint { assert Decodes(p, v, raw); }
    case Arr(_, elems) =>
      if IsList(p) {
        ElemsIff(if p == Blocks then Block else Message, elems);
        hide Readable, ReadableElems, InElems;
        assert forall s :: Decodes(p, v, s) <==> InElems(if p == Blocks then Block else Message, elems, s);
      }
    case Obj(_, members) =>
      if p != Breakpoint { assert forall s :: Decodes(p, v, s) <==> InMembers(p, members, s); }
      if IsList(p) { KeysIff(p, members); } else if p != Breakpoint { MembersIff(p, members); }
  }

  ghost predicate AreClear(p: Place, es: Elems) { forall s :: InElems(p, es, s) ==> !HasLoneSurrogate(s) }

  lemma ClearElems(p: Place, es: Elems)
    requires es.Elem?
    ensures AreClear(p, es) <==> IsClear(p, es.value) && AreClear(p, es.rest)
  {
    hide HasLoneSurrogate;
    forall s ensures InElems(p, es, s) <==> Decodes(p, es.value, s) || InElems(p, es.rest, s) {}
  }

  lemma {:induction false} ElemsIff(p: Place, es: Elems)
    ensures ReadableElems(p, es) <==> AreClear(p, es)
    decreases es
  {
    hide HasLoneSurrogate, IsClear;
    if es.Elem? {
      ReadableIff(p, es.value);
      ElemsIff(p, es.rest);
      ClearElems(p, es);
      hide AreClear;
    }
  }

  ghost predicate MembersClear(p: Place, ms: Members) { forall s :: InMembers(p, ms, s) ==> !HasLoneSurrogate(s) }

  ghost predicate MemberClear(p: Place, name: string, v: Value) { forall s :: InMember(p, name, v, s) ==> !HasLoneSurrogate(s) }

  lemma ClearMembers(p: Place, ms: Members)
    requires ms.Member?
    ensures MembersClear(p, ms) <==>
      !HasLoneSurrogate(ms.key) && MemberClear(p, Decode(ms.key), ms.value) && MembersClear(p, ms.rest)
  {
    hide HasLoneSurrogate, Decode, InMember;
    forall s ensures InMembers(p, ms, s) <==> ms.key == s || InMember(p, Decode(ms.key), ms.value, s) || InMembers(p, ms.rest, s) {}
    assert InMembers(p, ms, ms.key);
  }

  /** Of an object where a list should stand, the keys and nothing else. */
  lemma {:induction false} KeysIff(p: Place, ms: Members)
    requires IsList(p)
    ensures KeysReadable(ms) <==> MembersClear(p, ms)
  {
    hide HasLoneSurrogate, Decode;
    if ms.Member? {
      KeysIff(p, ms.rest);
      ClearMembers(p, ms);
      hide MembersClear;
    }
  }

  /** What is decoded of a member's value is what its place says. */
  lemma MemberIff(p: Place, name: string, v: Value)
    requires !IsList(p) && p != Breakpoint
    ensures MemberClear(p, name, v) <==> (MemberPlace(p, name).Some? ==> IsClear(MemberPlace(p, name).value, v))
  {
    hide Decodes, HasLoneSurrogate;
    var q := MemberPlace(p, name);
    if q.Some? {
      forall s ensures InMember(p, name, v, s) <==> Decodes(q.value, v, s) {}
    } else {
      forall s ensures !InMember(p, name, v, s) {}
    }
  }

  lemma {:induction false} MembersIff(p: Place, ms: Members)
    requires !IsList(p) && p != Breakpoint
    ensures ReadableMembers(p, ms) <==> MembersClear(p, ms)
    decreases ms
  {
    hide HasLoneSurrogate, Decode, MemberPlace, IsClear, MemberClear;
    if ms.Member? {
      var name := Decode(ms.key);
      MemberIff(p, name, ms.value);
      if MemberPlace(p, name).Some? { ReadableIff(MemberPlace(p, name).value, ms.value); }
      MembersIff(p, ms.rest);
      ClearMembers(p, ms);
      hide MembersClear;
    }
  }

  /** So the rewrite looks at a body exactly when it says `"cache_control"` somewhere, is UTF-8 and one JSON
      object, and no string that is decoded is half a surrogate pair. */
  lemma WalkedIff(body: string)
    ensures Walked(body) <==>
      && (exists k: nat :: StandsAt(body, "\"cache_control\"", k)) && IsUtf8(body) && ParseDoc(body).Some?
      && ParseDoc(body).value.root.Obj? && IsClear(Root, ParseDoc(body).value.root)
  {
    hide Contains, StandsAt, IsUtf8, ParseDoc, Readable, IsClear;
    ContainsIff(body, "\"cache_control\"");
    if ParseDoc(body).Some? { ReadableIff(Root, ParseDoc(body).value.root); }
  }
}
