/** What a writer of `src/codex_token_store.rs` reads and what it keeps on disk meanwhile: which documents
    are logins, what the first read leads to, and that the temporary file is what is published. */
module TokenReads {
  import opened Options
  import opened JsonTree
  import opened TokenStore

  // ----- Which documents are logins -----

  /** The field is not there, or `null`, or a text. */
  predicate IsTextOrNothing(fields: map<string, Json>, name: string) {
    name in fields ==> fields[name] == JBare("null") || fields[name].JStr?
  }

  predicate HasText(fields: map<string, Json>, name: string) {
    name in fields && fields[name].JStr? && fields[name].text != ""
  }

  /** A login is an object in ChatGPT mode, or in none, whose `tokens` are an object with an access and a
      refresh token, neither empty, and with an id token and an account id that can be read. */
  lemma LoginIff(d: Json)
    ensures IsLogin(d) <==> exists fields, tokens ::
      && d == JObj(fields) && "tokens" in fields && fields["tokens"] == JObj(tokens)
      && ("auth_mode" in fields ==> fields["auth_mode"] in {JBare("null"), JStr("chatgpt")})
      && HasText(tokens, "access_token") && HasText(tokens, "refresh_token")
      && IsTextOrNothing(tokens, "id_token") && IsTextOrNothing(tokens, "account_id")
  {
    if d.JObj? { ModeIff(d); }
    if d.JObj? && Get(d, "tokens").Some? { TokensIff(Get(d, "tokens").value); }
    hide IsOptionalText, Text, HasText, IsTextOrNothing, IsTokenData;
    if IsLogin(d) { assert d == JObj(d.fields) && d.fields["tokens"] == JObj(d.fields["tokens"].fields); }
  }

  lemma ModeIff(d: Json)
    requires d.JObj?
    ensures IsOptionalText(d, "auth_mode") && (Text(d, "auth_mode").Some? ==> Text(d, "auth_mode").value == "chatgpt") <==>
      ("auth_mode" in d.fields ==> d.fields["auth_mode"] in {JBare("null"), JStr("chatgpt")})
  {
  }

  lemma TokensIff(t: Json)
    ensures IsTokenData(t) <==>
      && t.JObj? && HasText(t.fields, "access_token") && HasText(t.fields, "refresh_token")
      && IsTextOrNothing(t.fields, "id_token") && IsTextOrNothing(t.fields, "account_id")
  {
    if t.JObj? {
      OptionalIff(t, "id_token");
      OptionalIff(t, "account_id");
    }
    hide IsOptionalText, IsTextOrNothing;
  }

  lemma OptionalIff(t: Json, name: string)
    requires t.JObj?
    ensures IsOptionalText(t, name) <==> IsTextOrNothing(t.fields, name)
  {
    if name in t.fields && t.fields[name].JStr? { assert t.fields[name] == JStr(t.fields[name].text); }
  }

  /** The first read fails unless it finds a login, gives up on a login with another refresh token, and else
      goes on with the bytes and the document. */
  lemma FirstReadIff(c: Setup, s: State, w: nat)
    requires PhaseOf(s, w).Linkless?
    ensures var p := PhaseOf(Next(c, s, Advance(w)), w);
      && (p == Done(Failed) <==> Document(c.codec, s.file).None? || !IsLogin(Document(c.codec, s.file).value))
      && (p == Done(Superseded) <==>
            Document(c.codec, s.file).Some? && IsLogin(Document(c.codec, s.file).value) && !Holds(c.codec, s.file, c.request(w).expected))
      && (Holds(c.codec, s.file, c.request(w).expected) <==> p.Loaded?)
      && (p.Loaded? ==> Contents(s.file) == Some(p.original) && Document(c.codec, s.file) == Some(p.document))
  {
    hide IsLogin, RefreshText;
  }

  // ----- The temporary file -----

  /** From its preparation to its publication, the temporary holds exactly the document to be published. */
  predicate TempMatches(c: Setup, s: State, w: nat) {
    HasTemp(PhaseOf(s, w)) ==> w in s.temps && s.temps[w] == c.codec.pretty(PhaseOf(s, w).edited)
  }

  lemma AdvancedTemp(c: Setup, s: State, w: nat, v: nat)
    requires TempMatches(c, s, v)
    ensures TempMatches(c, Advanced(c, s, w), v)
  {
    hide IsLogin, Update, RefreshChanged, Document;
    if v != w { AdvancedOther(c, s, w, v); }
  }

  lemma StepTemp(c: Setup, s: State, a: Action, v: nat)
    requires TempMatches(c, s, v)
    ensures TempMatches(c, Next(c, s, a), v)
  {
    hide Advanced;
    match a
    case External(file) => ExternalPhases(c, s, file, v);
    case Advance(w) => AdvancedTemp(c, s, w, v);
    case Fail(w, unlinked) =>
  }

  lemma {:induction false} RunTemp(c: Setup, s: State, actions: seq<Action>, v: nat)
    requires TempMatches(c, s, v)
    ensures TempMatches(c, Run(c, s, actions), v)
    decreases |actions|
  {
    hide Next, TempMatches;
    if |actions| > 0 {
      StepTemp(c, s, actions[0], v);
      RunTemp(c, Next(c, s, actions[0]), actions[1..], v);
    }
  }

  /** So in every run, what a publication puts in place is the temporary, which is then gone. */
  lemma PublishesTheTemporary(c: Setup, file: File, actions: seq<Action>, w: nat)
    requires PhaseOf(Run(c, Initial(file), actions), w).Compared?
    ensures var s := Run(c, Initial(file), actions);
      var s' := Next(c, s, Advance(w));
      w in s.temps && s'.file == Regular(s.temps[w]) && s'.temps == s.temps - {w}
  {
    hide Run;
    RunTemp(c, Initial(file), actions, w);
  }

  /** A writer that fails takes its temporary with it, or leaves it empty when it cannot be unlinked, and lets
      go of the lock. */
  lemma FailClears(c: Setup, s: State, w: nat, unlinked: bool)
    requires IsActive(PhaseOf(s, w))
    ensures var s' := Next(c, s, Fail(w, unlinked));
      && PhaseOf(s', w) == Done(Failed) && s'.holder.None? && s'.file == s.file
      && (w in s'.temps <==> w in s.temps && !unlinked) && (w in s'.temps ==> s'.temps[w] == "")
  {
  }
}
