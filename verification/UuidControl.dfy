/** A body and a uuid for which the patched body is not JSON: the uuid is 36 tabs. */
module UuidControl {
  import opened Sequences
  import opened Options
  import opened JsonText
  import opened JsonTree
  import opened UuidMachine
  import opened UuidAgreement
  import opened UuidStray
  import opened UuidPatch

  function Ones(): string { seq(WIDTH, _ => '1') }

  function Tabs(): string { seq(WIDTH, _ => '\t') }

  const QUOTE := "\\\""

  /** `account_uuid\":\"111...1\"` */
  function RawId(): string { PREFIX + (Ones() + QUOTE) }

  /** `{"metadata":{"user_id":"account_uuid\":\"111...1\""}}` */
  function Body(): Doc { Doc("", Obj("", Compact("metadata", Obj("", User(RawId())), NoMember)), "") }

  lemma RawIsBody()
    ensures IsStrBody(RawId())
  {
    hide IsStrBody;
    QuoteIsBody();
    assert Clean(Ones()) && NoControl(Ones());
    PlainFront(Ones(), QUOTE);
    PrefixIsBody();
    JoinBodies(PREFIX, Ones() + QUOTE);
  }

  lemma QuoteIsBody()
    ensures IsStrBody(QUOTE)
  {
    assert StepLen(QUOTE) == 2 && IsStrBody(QUOTE[2..]);
  }

  lemma BodyReads()
    ensures WellFormedDoc(Body()) && UserId(Body()) == Some((Str(RawId()), 23))
  {
    hide IsStrBody, RawId, Fine, HasKey, WellFormedDoc, Regular, UserId;
    RawIsBody();
    NothingIsFine("metadata");
    MetadataReads(RawId(), NoMember);
  }

  lemma PrefixIsFirst()
    ensures FirstAt(RawId(), PREFIX) == Some(0)
  {
    hide FirstAt;
    AtFront(PREFIX, Ones() + QUOTE);
    assert PREFIX[..|PREFIX|] == PREFIX;
  }

  /** The window of the ones can be replaced, wherever the string stands. */
  lemma WindowIsReplaceable(x: string, y: string, start: nat)
    requires start == |x| + |PREFIX|
    ensures Replaceable(x + (RawId() + y), start) && (x + (RawId() + y))[start..start + WIDTH] == Ones()
  {
    var front, back := x + PREFIX, QUOTE + y;
    Assoc(PREFIX, Ones() + QUOTE, y);
    Assoc(Ones(), QUOTE, y);
    Assoc(x, PREFIX, Ones() + back);
    var body := front + (Ones() + back);
    assert x + (RawId() + y) == body;
    assert body[start..start + WIDTH] == Ones();
    assert body[start + WIDTH..] == back;
    assert body[start + WIDTH] == back[0] && body[start + WIDTH + 1] == back[1];
  }

  lemma BodyText()
    requires UserId(Body()) == Some((Str(RawId()), 23))
    ensures var x := DocBefore(Body(), "") + "\""; |x| == 24 && RenderDoc(Body()) == x + (RawId() + ("\"" + DocAfter(Body())))
  {
    hide UserId, RawId, DocBefore, DocAfter, RenderDoc, Body;
    var d := Body();
    var before, after := DocBefore(d, ""), DocAfter(d);
    DocAround(d);
    DocBeforeIsText(d, Put(Str(RawId()), after));
    Assoc(before, "\"", RawId() + ("\"" + after));
  }

  lemma BodyLocated()
    requires UserId(Body()) == Some((Str(RawId()), 23))
    ensures Locate(Body()) == Some(24 + |PREFIX|)
  {
    hide FirstAt, UserId, RawId, Locate, IsStrBody, Body;
    RawIsBody();
    PrefixIsFirst();
    StrOccurrence(RawId());
    LocatedAt(Body());
  }

  lemma TabsAreWritable()
    ensures Writable(Tabs()) && !NoControl(Tabs()) && Tabs() != Ones()
  {
    assert Tabs()[0] == '\t' && Ones()[0] == '1';
  }

  lemma TabsAreWritten()
    requires UserId(Body()) == Some((Str(RawId()), 23))
    ensures PatchAt(RenderDoc(Body()), Tabs(), Locate(Body())).Some?
  {
    hide UserId, RawId, DocBefore, DocAfter, RenderDoc, Locate, Replaceable, Overwrite, Body, Tabs, Ones, Clean, PREFIX;
    BodyText();
    BodyLocated();
    TabsAreWritable();
    WindowIsReplaceable(DocBefore(Body(), "") + "\"", "\"" + DocAfter(Body()), 24 + |PREFIX|);
  }

  /** The body is JSON with a clean uuid in it, the tabs pass both checks, and what is sent is not JSON. */
  lemma TabsBreakTheBody()
    ensures WellFormedDoc(Body()) && Writable(Tabs())
    ensures PatchAt(RenderDoc(Body()), Tabs(), Locate(Body())).Some?
    ensures ParseDoc(PatchAt(RenderDoc(Body()), Tabs(), Locate(Body())).value).None?
  {
    hide UserId, WellFormedDoc, RawId, RenderDoc, Locate, ParseDoc, PatchAt, Body, Tabs, NoControl, Writable;
    BodyReads();
    TabsAreWritable();
    TabsAreWritten();
    PatchedDocument(Body(), Tabs());
  }
}
