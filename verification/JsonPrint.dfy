/** Printing a tree so that it is read back: the partner of `ParseDoc` and `Tree`. */
module JsonPrint {
  import opened Sequences
  import opened Options
  import opened JsonText
  import opened JsonTree
  import opened JsonUtf8

  /** A tree a text can mean: its bare tokens are JSON tokens. */
  predicate IsPrintable(j: Json) {
    match j
    case JBare(tok) => IsBareToken(tok)
    case JStr(_) => true
    case JArr(items) => forall i :: 0 <= i < |items| ==> IsPrintable(items[i])
    case JObj(fields) => forall k :: k in fields ==> IsPrintable(fields[k])
  }

  // ----- Strings -----

  const HEX := "0123456789abcdef"

  /** One character of a string body. */
  function EscapeChar(c: char): string {
    if c == '"' || c == '\\' then ['\\', c]
    else if c < ' ' then "\\u00" + [HEX[c as nat / 16], HEX[c as nat % 16]]
    else [c]
  }

  function Escape(s: string): string {
    if s == "" then "" else EscapeChar(s[0]) + Escape(s[1..])
  }

  lemma HexDigits(n: nat)
    requires n < 16
    ensures IsHex(HEX[n]) && HexValue(HEX[n]) == n
  {
  }

  /** A printed character in front of a body is one step of it, and decodes to the character. */
  lemma EscapeStep(c: char, rest: string)
    ensures var e := EscapeChar(c);
      && StepLen(e + rest) == |e| > 0 && (e + rest)[|e|..] == rest
      && Decode(e + rest) == [c] + Decode(rest)
      && (HasLoneSurrogate(e + rest) <==> HasLoneSurrogate(rest))
  {
    var e := EscapeChar(c);
    var s := e + rest;
    assert s[|e|..] == rest;
    if c == '"' || c == '\\' {
      assert s[0] == '\\' && s[1] == c && s[2..] == rest;
    } else if c < ' ' {
      ControlStep(c, rest);
    } else {
      assert s[0] == c && s[..1] == [c] && s[1..] == rest;
    }
  }

  lemma ControlStep(c: char, rest: string)
    requires c < ' '
    ensures var e := EscapeChar(c);
      && |e| == 6 && StepLen(e + rest) == 6 && Decode(e + rest) == [c] + Decode(rest)
      && (HasLoneSurrogate(e + rest) <==> HasLoneSurrogate(rest))
  {
    var n := c as nat;
    var s := EscapeChar(c) + rest;
    ControlBytes(c, rest);
    assert s[6..] == rest;
    assert !IsPair(s) && Utf8(n) == [c];
  }

  lemma ControlBytes(c: char, rest: string)
    requires c < ' '
    ensures var s := EscapeChar(c) + rest;
      |EscapeChar(c)| == 6 && IsUnicodeEscape(s) && EscapeLen(s) == 6 && CodeUnit(s) == c as nat
  {
    var n := c as nat;
    HexDigits(n / 16);
    HexDigits(n % 16);
    HexDigits(0);
    var s := EscapeChar(c) + rest;
    assert s[0] == '\\' && s[1] == 'u' && s[2] == '0' && s[3] == '0' && s[4] == HEX[n / 16] && s[5] == HEX[n % 16];
  }

  lemma {:induction false} EscapeReads(s: string)
    ensures IsStrBody(Escape(s)) && Decode(Escape(s)) == s && !HasLoneSurrogate(Escape(s))
  {
    hide EscapeChar, StepLen, Decode, HasLoneSurrogate;
    if s == "" {
      NothingEscaped();
    } else {
      EscapeReads(s[1..]);
      EscapeStep(s[0], Escape(s[1..]));
      assert s == [s[0]] + s[1..];
    }
  }

  lemma NothingEscaped()
    ensures Decode("") == "" && !HasLoneSurrogate("")
  {
  }

  /** A multi-byte character is printed as it is. */
  lemma {:induction false} EscapeSkip(s: string, n: nat)
    requires n <= |s| && forall i :: 0 <= i < n ==> s[i] >= '\U{80}'
    ensures Escape(s) == s[..n] + Escape(s[n..])
  {
    if n == 0 {
      assert s[0..] == s && s[..0] == "";
      EmptyLeft(Escape(s));
    } else {
      EscapeSkip(s[1..], n - 1);
      assert EscapeChar(s[0]) == [s[0]];
      assert s[1..][n - 1..] == s[n..] && s[..n] == [s[0]] + s[1..][..n - 1];
      Assoc([s[0]], s[1..][..n - 1], Escape(s[n..]));
    }
  }

  lemma CharIsAscii(c: char)
    requires c < '\U{80}'
    ensures IsAscii(EscapeChar(c))
  {
    if c < ' ' {
      assert forall k :: 0 <= k < |HEX| ==> HEX[k] < '\U{80}';
    }
  }

  lemma WideStep(s: string)
    requires Utf8Step(s) > 1
    ensures (forall i :: 0 <= i < Utf8Step(s) ==> s[i] >= '\U{80}') && IsUtf8(s[..Utf8Step(s)])
  {
    StepAlone(s);
  }

  /** Printing keeps UTF-8. */
  lemma {:induction false} EscapeUtf8(s: string)
    requires IsUtf8(s)
    ensures IsUtf8(Escape(s))
    decreases |s|
  {
    if s != "" {
      var n := Utf8Step(s);
      assert n == 1 ==> s[0] < '\U{80}';
      EscapeUtf8(s[n..]);
      hide Utf8Step, IsUtf8, EscapeChar;
      if n == 1 {
        CharIsAscii(s[0]);
        AsciiFront(EscapeChar(s[0]), Escape(s[1..]));
      } else {
        WideStep(s);
        EscapeSkip(s, n);
        Utf8Concat(s[..n], Escape(s[n..]));
      }
    }
  }

  // ----- Values -----

  /** A text of the tree, without whitespace and with an object's fields in some order. */
  ghost function Syntax(j: Json): Value
    decreases j, 1, 0
  {
    match j
    case JBare(tok) => Bare(tok)
    case JStr(text) => Str(Escape(text))
    case JArr(items) => Arr("", SyntaxElems(j, 0))
    case JObj(fields) => Obj("", SyntaxMembers(j, fields))
  }

  ghost function SyntaxElems(j: Json, i: nat): Elems
    requires j.JArr? && i <= |j.items|
    decreases j, 0, |j.items| - i
  {
    if i == |j.items| then NoElem else Elem("", Syntax(j.items[i]), "", SyntaxElems(j, i + 1))
  }

  ghost function SyntaxMembers(j: Json, left: map<string, Json>): Members
    requires j.JObj? && left.Keys <= j.fields.Keys && forall k :: k in left ==> left[k] == j.fields[k]
    decreases j, 0, |left|
  {
    if |left| == 0 then NoMember
    else
      var k :| k in left;
      Fewer(left, k);
      Member("", Escape(k), "", "", Syntax(j.fields[k]), "", SyntaxMembers(j, left - {k}))
  }

  lemma Fewer(left: map<string, Json>, k: string)
    requires k in left
    ensures |left - {k}| < |left| && left == map[k := left[k]] + (left - {k})
  {
    assert (left - {k}).Keys == left.Keys - {k};
  }

  /** The text is well formed, a full parse accepts it, and it means the tree. */
  predicate Means(v: Value, j: Json) { WellFormed(v) && Accepted(v) && Tree(v) == j }

  lemma {:induction false} SyntaxMeans(j: Json)
    requires IsPrintable(j)
    ensures Means(Syntax(j), j)
    decreases j, 1, 0
  {
    match j
    case JBare(tok) =>
    case JStr(text) => EscapeReads(text);
    case JArr(items) => SyntaxElemsMean(j, 0);
    case JObj(fields) => SyntaxMembersMean(j, fields);
  }

  lemma {:induction false} SyntaxElemsMean(j: Json, i: nat)
    requires j.JArr? && i <= |j.items| && IsPrintable(j)
    ensures var es := SyntaxElems(j, i); WellFormedElems(es) && AcceptedElems(es) && Items(es) == j.items[i..]
    decreases j, 0, |j.items| - i
  {
    if i < |j.items| {
      SyntaxMeans(j.items[i]);
      SyntaxElemsMean(j, i + 1);
      assert j.items[i..] == [j.items[i]] + j.items[i + 1..];
    }
  }

  lemma {:induction false} SyntaxMembersMean(j: Json, left: map<string, Json>)
    requires j.JObj? && left.Keys <= j.fields.Keys && (forall k :: k in left ==> left[k] == j.fields[k]) && IsPrintable(j)
    ensures var ms := SyntaxMembers(j, left); WellFormedMembers(ms) && AcceptedMembers(ms) && Fields(ms) == left
    decreases j, 0, |left|
  {
    hide Escape, IsStrBody, Decode, HasLoneSurrogate;
    if |left| == 0 {
      assert left == map[];
    } else {
      var ms := SyntaxMembers(j, left);
      var k :| k in left && ms == Member("", Escape(k), "", "", Syntax(j.fields[k]), "", SyntaxMembers(j, left - {k}));
      Fewer(left, k);
      EscapeReads(k);
      SyntaxMeans(j.fields[k]);
      SyntaxMembersMean(j, left - {k});
    }
  }

  lemma {:induction false} SyntaxUtf8(j: Json)
    requires Utf8Json(j)
    ensures Utf8Value(Syntax(j))
    decreases j, 1, 0
  {
    hide IsUtf8, Escape;
    match j
    case JBare(_) =>
    case JStr(text) => EscapeUtf8(text);
    case JArr(items) => SyntaxElemsUtf8(j, 0);
    case JObj(fields) => SyntaxMembersUtf8(j, fields);
  }

  lemma {:induction false} SyntaxElemsUtf8(j: Json, i: nat)
    requires j.JArr? && i <= |j.items| && Utf8Json(j)
    ensures Utf8Elems(SyntaxElems(j, i))
    decreases j, 0, |j.items| - i
  {
    if i < |j.items| {
      SyntaxUtf8(j.items[i]);
      SyntaxElemsUtf8(j, i + 1);
    }
  }

  lemma {:induction false} SyntaxMembersUtf8(j: Json, left: map<string, Json>)
    requires j.JObj? && left.Keys <= j.fields.Keys && (forall k :: k in left ==> left[k] == j.fields[k]) && Utf8Json(j)
    ensures Utf8Members(SyntaxMembers(j, left))
    decreases j, 0, |left|
  {
    hide IsUtf8, Escape;
    if |left| > 0 {
      var ms := SyntaxMembers(j, left);
      var k :| k in left && ms == Member("", Escape(k), "", "", Syntax(j.fields[k]), "", SyntaxMembers(j, left - {k}));
      Fewer(left, k);
      EscapeUtf8(k);
      SyntaxUtf8(j.fields[k]);
      SyntaxMembersUtf8(j, left - {k});
    }
  }

  // ----- Documents -----

  /** A full parse, as far as it is modelled: the text's tree, unless the text is not UTF-8 or a string is
      half a surrogate pair. */
  function ReadTree(text: string): Option<Json> {
    if !IsUtf8(text) then None
    else
      var d :- ParseDoc(text);
      if Accepted(d.root) then Some(Tree(d.root)) else None
  }

  /** The tree's text and a final newline. */
  ghost function PrintTree(j: Json): string { RenderDoc(Doc("", Syntax(j), "\n")) }

  /** What is printed is read back. */
  lemma PrintReads(j: Json)
    requires IsPrintable(j) && Utf8Json(j)
    ensures ReadTree(PrintTree(j)) == Some(j)
  {
    hide ParseDoc, RenderDoc, Syntax, IsUtf8, Utf8Json, Utf8Value;
    SyntaxMeans(j);
    SyntaxUtf8(j);
    DocUtf8(Doc("", Syntax(j), "\n"));
    ParseComplete(Doc("", Syntax(j), "\n"));
  }

  /** What is read can be printed. */
  lemma ReadIsPrintable(text: string)
    requires ReadTree(text).Some?
    ensures IsPrintable(ReadTree(text).value) && Utf8Json(ReadTree(text).value)
  {
    hide ParseDoc, Accepted, IsUtf8, Utf8Json, IsPrintable, WellFormed, Utf8Value, RenderDoc;
    ParseSound(text);
    var d := ParseDoc(text).value;
    DocUtf8(d);
    TreeIsPrintable(d.root);
    TreeUtf8(d.root);
  }

  lemma {:induction false} TreeIsPrintable(v: Value)
    requires WellFormed(v)
    ensures IsPrintable(Tree(v))
    decreases v
  {
    match v
    case Bare(_) =>
    case Str(_) =>
    case Arr(_, elems) => ItemsArePrintable(elems);
    case Obj(_, members) => FieldsArePrintable(members);
  }

  lemma {:induction false} ItemsArePrintable(es: Elems)
    requires WellFormedElems(es)
    ensures forall i :: 0 <= i < |Items(es)| ==> IsPrintable(Items(es)[i])
    decreases es
  {
    if es.Elem? {
      TreeIsPrintable(es.value);
      ItemsArePrintable(es.rest);
    }
  }

  lemma {:induction false} FieldsArePrintable(ms: Members)
    requires WellFormedMembers(ms)
    ensures forall k :: k in Fields(ms) ==> IsPrintable(Fields(ms)[k])
    decreases ms
  {
    if ms.Member? {
      TreeIsPrintable(ms.value);
      FieldsArePrintable(ms.rest);
    }
  }
}
