/** The law the token store relies on is met by the JSON reader and printer of this project, and a run
    over real documents in which an edit is lost. */
module TokenCodec {
  import opened Options
  import opened JsonTree
  import opened JsonUtf8
  import opened JsonPrint
  import opened TokenStore

  ghost function JsonCodec(): Codec { Codec(ReadTree, PrintTree, s => s) }

  predicate IsUtf8Option(s: Option<string>) { s.Some? ==> IsUtf8(s.value) }

  /** Everything a request writes is UTF-8, as any string of the source is. */
  predicate IsUtf8Request(r: Request) {
    IsUtf8Option(r.tokens.idToken) && IsUtf8(r.tokens.access) && IsUtf8Option(r.tokens.refresh) && IsUtf8(r.now)
  }

  /** A tree the printer prints and the reader reads back. */
  predicate IsSound(j: Json) { IsPrintable(j) && Utf8Json(j) }

  lemma FieldIsSound(fields: map<string, Json>, name: string, v: Json)
    requires IsSound(JObj(fields)) && IsAscii(name) && IsSound(v)
    ensures IsSound(JObj(fields[name := v]))
  {
    hide IsUtf8;
    Utf8Ascii(name);
  }

  lemma TextIsSound(s: string)
    requires IsUtf8(s)
    ensures IsSound(JStr(s))
  {
  }

  lemma PartIsSound(d: Json, name: string)
    requires IsSound(d) && d.JObj? && name in d.fields
    ensures IsSound(d.fields[name])
  {
  }

  lemma TokensAreSound(fields: map<string, Json>, t: Tokens)
    requires IsSound(JObj(fields)) && t.refresh.Some? && IsUtf8Option(t.idToken) && IsUtf8(t.access) && IsUtf8Option(t.refresh)
    ensures IsSound(JObj(WithTokens(fields, t)))
  {
    hide IsSound, IsUtf8;
    TextIsSound(t.access);
    TextIsSound(t.refresh.value);
    var kept := fields;
    if t.idToken.Some? {
      TextIsSound(t.idToken.value);
      kept := fields["id_token" := JStr(t.idToken.value)];
      FieldIsSound(fields, "id_token", JStr(t.idToken.value));
    }
    FieldIsSound(kept, "access_token", JStr(t.access));
    FieldIsSound(kept["access_token" := JStr(t.access)], "refresh_token", JStr(t.refresh.value));
  }

  /** A publication of a sound document is sound: it adds strings. */
  lemma UpdateIsSound(d: Json, r: Request)
    requires IsLogin(d) && r.tokens.refresh.Some? && IsSound(d) && IsUtf8Request(r)
    ensures IsSound(Update(d, r.tokens, r.now))
  {
    hide IsUtf8, WithTokens, IsSound;
    PartIsSound(d, "tokens");
    var tokens := d.fields["tokens"];
    TokensAreSound(tokens.fields, r.tokens);
    TextIsSound(r.now);
    var after := JObj(WithTokens(tokens.fields, r.tokens));
    FieldIsSound(d.fields, "tokens", after);
    FieldIsSound(d.fields["tokens" := after], "last_refresh", JStr(r.now));
  }

  /** For any requests in UTF-8. */
  lemma JsonCodecIsLawful(request: nat -> Request)
    requires forall w: nat :: IsUtf8Request(request(w))
    ensures Lawful(Setup(JsonCodec(), request))
  {
    hide ReadTree, PrintTree, IsPrintable, Utf8Json, IsLogin, Update, IsUtf8Request;
    var c := Setup(JsonCodec(), request);
    forall s, w: nat | c.codec.parse(s).Some? && IsLogin(c.codec.parse(s).value) && c.request(w).tokens.refresh.Some?
      ensures ReadsBack(c.codec, Update(c.codec.parse(s).value, c.request(w).tokens, c.request(w).now))
    {
      assert IsUtf8Request(request(w));
      ReadIsPrintable(s);
      UpdateIsSound(c.codec.parse(s).value, c.request(w));
      PrintReads(Update(c.codec.parse(s).value, c.request(w).tokens, c.request(w).now));
    }
  }

  // ----- A run that loses an edit -----

  const TOKENS := JObj(map[]["access_token" := JStr("a")]["refresh_token" := JStr("r")])
  const LOGIN := JObj(map[]["tokens" := TOKENS])

  /** The login with a field that somebody added. */
  const EDITED := JObj(map[]["tokens" := TOKENS]["x" := JStr("y")])

  const REQUEST := Request("r", Tokens(None, "b", Some("s")), "now")

  ghost function OneWriter(): Setup { Setup(JsonCodec(), _ => REQUEST) }

  lemma NothingIsSound()
    ensures IsSound(JObj(map[]))
  {
  }

  lemma StringIsSound(s: string)
    requires IsAscii(s)
    ensures IsUtf8(s) && IsSound(JStr(s))
  {
    hide IsUtf8;
    Utf8Ascii(s);
  }

  lemma DocumentsAreSound()
    ensures IsSound(LOGIN) && IsSound(EDITED)
  {
    hide IsSound;
    NothingIsSound();
    StringIsSound("a");
    StringIsSound("r");
    StringIsSound("y");
    FieldIsSound(map[], "access_token", JStr("a"));
    FieldIsSound(map[]["access_token" := JStr("a")], "refresh_token", JStr("r"));
    FieldIsSound(map[], "tokens", TOKENS);
    FieldIsSound(map[]["tokens" := TOKENS], "x", JStr("y"));
  }

  lemma RequestIsUtf8()
    ensures IsUtf8Request(REQUEST)
  {
    hide IsUtf8;
    StringIsSound("b");
    StringIsSound("s");
    StringIsSound("now");
  }

  lemma LoginIsLogin()
    ensures IsLogin(LOGIN) && RefreshText(LOGIN) == Some("r")
  {
    assert Get(LOGIN, "tokens") == Some(TOKENS) && Get(LOGIN, "auth_mode").None?;
    assert Text(TOKENS, "access_token") == Some("a") && Text(TOKENS, "refresh_token") == Some("r");
    assert Get(TOKENS, "id_token").None? && Get(TOKENS, "account_id").None?;
  }

  lemma EditShows()
    requires IsLogin(LOGIN)
    ensures Strip(EDITED) != Strip(LOGIN) && Update(LOGIN, REQUEST.tokens, REQUEST.now) != EDITED
  {
    assert "x" in Strip(EDITED).fields && "x" !in Strip(LOGIN).fields;
    assert "x" !in Update(LOGIN, REQUEST.tokens, REQUEST.now).fields;
  }

  /** What is published is another text than the edit's. */
  lemma PublishedIsNot()
    requires IsSound(EDITED) && IsSound(LOGIN) && IsLogin(LOGIN) && IsUtf8Request(REQUEST)
    ensures PrintTree(Update(LOGIN, REQUEST.tokens, REQUEST.now)) != PrintTree(EDITED)
  {
    EditShows();
    hide PrintTree, ReadTree, Update, IsLogin;
    UpdateIsSound(LOGIN, REQUEST);
    PrintReads(Update(LOGIN, REQUEST.tokens, REQUEST.now));
    PrintReads(EDITED);
  }

  /** One writer, a login, and an edit in the gap: the writer publishes and the edit is gone. */
  lemma GapLosesAnEdit()
    ensures var c := OneWriter();
      var edit := Regular(PrintTree(EDITED));
      var s := Run(c, Initial(Regular(PrintTree(LOGIN))), Alone(0, 6) + [External(edit), Advance(0)]);
      Document(c.codec, edit) == Some(EDITED) && !Carries(c.codec, edit, s.file)
  {
    hide PrintTree, ReadTree, Strip, Update, Run, Alone, IsUtf8Request, IsLogin, Lawful, Carries, RefreshText, IsPrintable, Utf8Json, TOKENS;
    var c := OneWriter();
    var start, edit := Regular(PrintTree(LOGIN)), Regular(PrintTree(EDITED));
    DocumentsAreSound();
    RequestIsUtf8();
    LoginIsLogin();
    EditShows();
    PrintReads(LOGIN);
    PrintReads(EDITED);
    PublishedIsNot();
    JsonCodecIsLawful(c.request);
    hide LOGIN, EDITED;
    EditIsLost(c, 0, start, edit);
  }
}
