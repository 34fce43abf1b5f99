/** When a uuid is written at all: exactly the bytes `patch_at` asks for, said in literals, and that a
    body of the shape the client sends carries the configured uuid when it is passed on. */
module UuidWritten {
  import opened Sequences
  import opened Options
  import opened JsonText
  import opened UuidMachine
  import opened UuidAgreement
  import opened UuidPatch

  /** 36 bytes without a quote and without a backslash. */
  predicate IsSlot(s: string) { |s| == 36 && '"' !in s && '\\' !in s }

  lemma SlotIff(s: string)
    ensures IsSlot(s) <==> Writable(s)
  {
    assert '"' in s <==> exists k :: 0 <= k < |s| && s[k] == '"';
    assert '\\' in s <==> exists k :: 0 <= k < |s| && s[k] == '\\';
  }

  /** The body is changed exactly when the uuid and the window are such slots, an escaped quote closes the
      window and the two differ; it is then the body with the window replaced. */
  lemma PatchIff(body: string, uuid: string, start: Option<nat>)
    ensures PatchAt(body, uuid, start).Some? <==>
      && start.Some? && start.value + 38 <= |body| && IsSlot(uuid) && IsSlot(body[start.value..start.value + 36])
      && body[start.value + 36..start.value + 38] == "\\\"" && body[start.value..start.value + 36] != uuid
    ensures PatchAt(body, uuid, start).Some? ==>
      PatchAt(body, uuid, start).value == body[..start.value] + uuid + body[start.value + 36..]
  {
    hide Clean;
    SlotIff(uuid);
    if start.Some? && start.value + 38 <= |body| {
      var end := start.value + 36;
      SlotIff(body[start.value..end]);
      assert body[end..end + 2] == [body[end], body[end + 1]];
    }
  }

  /** A window between two texts is replaced, whatever stood in it. */
  lemma WindowIsWritten(x: string, was: string, y: string, uuid: string)
    requires IsSlot(was) && IsSlot(uuid)
    ensures Sent(x + (was + ("\\\"" + y)), uuid, Some(|x|)) == x + (uuid + ("\\\"" + y))
  {
    hide IsSlot, PatchAt;
    var back := "\\\"" + y;
    var body := x + (was + back);
    SlotWidth(was);
    SlotWidth(uuid);
    PatchIff(body, uuid, Some(|x|));
    assert body[|x|..|x| + 36] == was && body[|x| + 36..] == back && body[..|x|] == x;
    assert body[|x| + 36..|x| + 38] == back[..2] == "\\\"";
    Assoc(x, uuid, back);
  }

  lemma SlotWidth(s: string)
    ensures IsSlot(s) ==> |s| == 36
  {
  }

  /** The `user_id` the client sends: some text, `account_uuid\":\"`, a value, `\"` and some text. */
  function RawUserId(front: string, value: string, back: string): string {
    front + ("account_uuid\\\":\\\"" + (value + ("\\\"" + back)))
  }

  /** Every document with such a `user_id` is passed on with the configured uuid in that place and
      nothing else changed. */
  lemma UuidIsWritten(d: Doc, front: string, was: string, back: string, uuid: string)
    requires WellFormedDoc(d) && UserId(d).Some? && UserId(d).value.0 == Str(RawUserId(front, was, back))
    requires forall k: nat :: k < |front| ==> !OccursAt(RawUserId(front, was, back), "account_uuid\\\":\\\"", k)
    requires IsSlot(was) && IsSlot(uuid)
    ensures PatchAccountUuid(RenderDoc(d), uuid) == RenderDoc(SetUserId(d, Str(RawUserId(front, uuid, back))))
  {
    hide WellFormedDoc, UserId, RenderDoc, DocBefore, DocAfter, RawUserId, IsSlot, ParseDoc, Locate, Sent, SetUserId, OccursAt, Put, PREFIX;
    var after, before := DocAfter(d), DocBefore(d, "");
    DocAround(d);
    SetUserIdText(d, Str(RawUserId(front, uuid, back)));
    DocBeforeIsText(d, Put(Str(RawUserId(front, was, back)), after));
    DocBeforeIsText(d, Put(Str(RawUserId(front, uuid, back)), after));
    StandsBehind(before, front, was, back, after);
    StandsBehind(before, front, uuid, back, after);
    ParseComplete(d);
    LocatedBehind(d, front, was, back);
    WindowIsWritten(before + ("\"" + (front + PREFIX)), was, back + ("\"" + after), uuid);
  }

  lemma PrefixStands(front: string, was: string, back: string)
    requires forall k: nat :: k < |front| ==> !OccursAt(RawUserId(front, was, back), "account_uuid\\\":\\\"", k)
    ensures FirstAt(RawUserId(front, was, back), PREFIX) == Some(|front|)
  {
    hide FirstAt;
    var raw := RawUserId(front, was, back);
    var rest := was + ("\\\"" + back);
    Occurs(front, PREFIX, rest);
    FirstAtComplete(raw, PREFIX, |front|);
    FirstAtSound(raw, PREFIX);
  }

  lemma LocatedBehind(d: Doc, front: string, was: string, back: string)
    requires WellFormedDoc(d) && UserId(d).Some? && UserId(d).value.0 == Str(RawUserId(front, was, back))
    requires forall k: nat :: k < |front| ==> !OccursAt(RawUserId(front, was, back), "account_uuid\\\":\\\"", k)
    ensures Locate(d) == Some(UserId(d).value.1 + 1 + |front| + |PREFIX|)
  {
    hide WellFormedDoc, UserId, RawUserId, IsStrBody, Locate, OccursAt, FirstAt, Render, PREFIX;
    UserIdIsWellFormed(d);
    PrefixStands(front, was, back);
    StrOccurrence(RawUserId(front, was, back));
    LocatedAt(d);
  }

  lemma Occurs(front: string, pat: string, rest: string)
    ensures OccursAt(front + (pat + rest), pat, |front|)
  {
  }

  /** The string's text, cut in front of the window. */
  lemma StandsBehind(before: string, front: string, value: string, back: string, after: string)
    ensures before + Put(Str(RawUserId(front, value, back)), after) ==
            (before + ("\"" + (front + PREFIX))) + (value + ("\\\"" + (back + ("\"" + after))))
  {
    hide PREFIX;
    var tail := "\"" + after;
    var close := "\\\"" + back;
    var prefix := "account_uuid\\\":\\\"";
    Assoc("\\\"", back, tail);
    Assoc(value, close, tail);
    Assoc(prefix, value + close, tail);
    Assoc(front, prefix + (value + close), tail);
    var rest := value + ("\\\"" + (back + tail));
    Assoc(front, prefix, rest);
    Assoc("\"", front + prefix, rest);
    Assoc(before, "\"" + (front + prefix), rest);
    IsPrefix();
  }

  lemma IsPrefix()
    ensures PREFIX == "account_uuid\\\":\\\""
  {
  }
}
