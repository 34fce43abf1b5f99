/** Which documents have a `metadata.user_id` (`src/account_uuid.rs`, `BodyPeek` and `MetaPeek`): a derived
    struct reads a field that is there exactly once, in an object whose keys can all be read. */
module UuidFields {
  import opened Options
  import opened JsonText
  import opened JsonTree
  import opened UuidAgreement

  /** The keys as they are spelled, and the values beside them. */
  function Keys(ms: Members): seq<string> { if ms.NoMember? then [] else [ms.key] + Keys(ms.rest) }

  function Values(ms: Members): seq<Value> { if ms.NoMember? then [] else [ms.value] + Values(ms.rest) }

  /** `name` is the key at `i` and no other. */
  ghost predicate OnlyKey(keys: seq<string>, name: string, i: nat) {
    i < |keys| && Decode(keys[i]) == name && forall j :: 0 <= j < |keys| && j != i ==> Decode(keys[j]) != name
  }

  predicate AllReadable(keys: seq<string>) { forall i :: 0 <= i < |keys| ==> !HasLoneSurrogate(keys[i]) }

  lemma {:induction false} ReadableIff(ms: Members)
    ensures KeysReadable(ms) <==> AllReadable(Keys(ms))
  {
    hide HasLoneSurrogate;
    if ms.Member? {
      ReadableIff(ms.rest);
      var keys := Keys(ms);
      assert keys[0] == ms.key && keys[1..] == Keys(ms.rest);
      if AllReadable(keys[1..]) && !HasLoneSurrogate(keys[0]) {
        forall i | 0 <= i < |keys| ensures !HasLoneSurrogate(keys[i]) { if i > 0 { assert keys[i] == keys[1..][i - 1]; } }
      }
      if AllReadable(keys) {
        forall i | 0 <= i < |keys[1..]| ensures !HasLoneSurrogate(keys[1..][i]) { assert keys[1..][i] == keys[i + 1]; }
      }
    }
  }

  lemma {:induction false} NoKeyIff(ms: Members, name: string)
    ensures HasKey(ms, name) <==> exists i :: 0 <= i < |Keys(ms)| && Decode(Keys(ms)[i]) == name
  {
    hide Decode;
    if ms.Member? {
      NoKeyIff(ms.rest, name);
      var keys := Keys(ms);
      if Decode(ms.key) == name { assert keys[0] == ms.key; }
      if i :| 0 <= i < |Keys(ms.rest)| && Decode(Keys(ms.rest)[i]) == name { assert keys[i + 1] == Keys(ms.rest)[i]; }
      assert forall i :: 0 < i < |keys| ==> keys[i] == Keys(ms.rest)[i - 1];
    }
  }

  /** A key that is there once is at one place, with that value. */
  lemma {:induction false} OnceAt(ms: Members, name: string) returns (i: nat)
    requires HasKey(ms, name) && Once(ms, name)
    ensures OnlyKey(Keys(ms), name, i) && |Values(ms)| == |Keys(ms)| && Values(ms)[i] == ValueOf(ms, name)
  {
    hide Decode;
    var keys := Keys(ms);
    SameCount(ms);
    if Decode(ms.key) == name {
      i := 0;
      NoKeyIff(ms.rest, name);
      forall j | 0 < j < |keys| ensures Decode(keys[j]) != name { assert keys[j] == Keys(ms.rest)[j - 1]; }
    } else {
      var k := OnceAt(ms.rest, name);
      i := k + 1;
      forall j | 0 <= j < |keys| && j != i ensures Decode(keys[j]) != name {
        if j > 0 { assert keys[j] == Keys(ms.rest)[j - 1]; }
      }
    }
  }

  lemma {:induction false} SameCount(ms: Members)
    ensures |Values(ms)| == |Keys(ms)|
  {
    if ms.Member? { SameCount(ms.rest); }
  }

  lemma {:induction false} AtIsOnce(ms: Members, name: string, i: nat)
    requires OnlyKey(Keys(ms), name, i)
    ensures HasKey(ms, name) && Once(ms, name)
  {
    hide Decode;
    var keys := Keys(ms);
    if i == 0 {
      NoKeyIff(ms.rest, name);
      forall j | 0 <= j < |Keys(ms.rest)| ensures Decode(Keys(ms.rest)[j]) != name { assert keys[j + 1] == Keys(ms.rest)[j]; }
    } else {
      assert keys[i] == Keys(ms.rest)[i - 1];
      forall j | 0 <= j < |Keys(ms.rest)| && j != i - 1 ensures Decode(Keys(ms.rest)[j]) != name { assert keys[j + 1] == Keys(ms.rest)[j]; }
      AtIsOnce(ms.rest, name, i - 1);
      assert keys[0] == ms.key;
    }
  }

  /** An object's field is read exactly when one key is the name and every key can be read; it is then the
      value beside that key. */
  lemma FieldIff(v: Value, at: nat, name: string)
    ensures Field(v, at, name).Some? <==>
      v.Obj? && AllReadable(Keys(v.members)) && exists i: nat :: OnlyKey(Keys(v.members), name, i)
    ensures Field(v, at, name).Some? ==>
      forall i: nat :: OnlyKey(Keys(v.members), name, i) ==> i < |Values(v.members)| && Field(v, at, name).value.0 == Values(v.members)[i]
  {
    hide KeysReadable, Once, HasKey, OnlyKey, AllReadable;
    if v.Obj? {
      ReadableIff(v.members);
      if HasKey(v.members, name) && Once(v.members, name) {
        var i := OnceAt(v.members, name);
        OneKey(v.members, name, i);
        KeyInside(v.members, name, i);
      }
      if i: nat :| OnlyKey(Keys(v.members), name, i) { AtIsOnce(v.members, name, i); }
    }
  }

  lemma KeyInside(ms: Members, name: string, i: nat)
    requires OnlyKey(Keys(ms), name, i)
    ensures i < |Keys(ms)|
  {
  }

  /** There is no other place for it. */
  lemma OneKey(ms: Members, name: string, i: nat)
    requires OnlyKey(Keys(ms), name, i)
    ensures forall k: nat :: OnlyKey(Keys(ms), name, k) ==> k == i
  {
  }
}
