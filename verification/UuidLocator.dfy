/** The machine against the structural locator: on which documents the streaming machine finds
    what reading `metadata.user_id` out of the parsed body finds. */
module UuidLocator {
  import opened Sequences
  import opened Options
  import opened JsonText
  import opened UuidMachine

  // ----- Running the machine over rendered text -----

  /** The state between tokens: the open containers, and nothing else. */
  function Quiet(fs: seq<Frame>): State { START.(frames := fs) }

  /** Inside a string that is not the target. */
  function InString(fs: seq<Frame>, reading: bool, buf: string): State {
    Quiet(fs).(inStr := true, readingKey := reading, keyBuf := buf)
  }

  lemma Byte1(st: State, c: char, tail: string, i: nat, j: nat)
    requires Valid(st) && !st.done && j == i + 1
    ensures Run(st, [c] + tail, i) == Run(Step(st, c, i), tail, j)
  {
    assert ([c] + tail)[1..] == tail;
  }

  predicate IsInert(c: char) { c !in "{}[]:,\"" }

  lemma {:induction false} RunInert(fs: seq<Frame>, s: string, tail: string, i: nat, j: nat)
    requires (forall k :: 0 <= k < |s| ==> IsInert(s[k])) && j == i + |s|
    ensures Run(Quiet(fs), s + tail, i) == Run(Quiet(fs), tail, j)
    decreases |s|
  {
    if s == "" {
      assert s + tail == tail;
    } else {
      assert s + tail == [s[0]] + (s[1..] + tail);
      Byte1(Quiet(fs), s[0], s[1..] + tail, i, i + 1);
      RunInert(fs, s[1..], tail, i + 1, j);
    }
  }

  lemma RunSpace(fs: seq<Frame>, s: string, tail: string, i: nat, j: nat)
    requires AllSpace(s) && j == i + |s|
    ensures Run(Quiet(fs), s + tail, i) == Run(Quiet(fs), tail, j)
  {
    RunInert(fs, s, tail, i, j);
  }

  /** A body as the machine reads it: a backslash takes the next byte with it. */
  predicate IsScanned(raw: string) {
    || raw == ""
    || (raw[0] == '\\' && |raw| > 1 && IsScanned(raw[2..]))
    || (raw[0] != '\\' && raw[0] != '"' && IsScanned(raw[1..]))
  }

  lemma {:induction false} BodyIsScanned(raw: string)
    requires IsStrBody(raw)
    ensures IsScanned(raw)
    decreases |raw|
  {
    if raw != "" {
      var n := StepLen(raw);
      BodyIsScanned(raw[n..]);
      if n == 6 { HexIsScanned(raw); }
    }
  }

  lemma HexIsScanned(raw: string)
    requires |raw| >= 6 && raw[0] == '\\' && IsScanned(raw[6..])
    requires IsHex(raw[2]) && IsHex(raw[3]) && IsHex(raw[4]) && IsHex(raw[5])
    ensures IsScanned(raw)
  {
    assert raw[5..][1..] == raw[6..] && IsScanned(raw[5..]);
    assert raw[4..][1..] == raw[5..] && IsScanned(raw[4..]);
    assert raw[3..][1..] == raw[4..] && IsScanned(raw[3..]);
    assert raw[2..][1..] == raw[3..] && IsScanned(raw[2..]);
  }

  /** The key the machine reads: backslashes are dropped, escapes are not decoded. */
  function MachineKey(raw: string): string {
    if raw == "" then ""
    else if raw[0] == '\\' && |raw| > 1 then [raw[1]] + MachineKey(raw[2..])
    else raw[..1] + MachineKey(raw[1..])
  }

  /** Where the machine is after a string: back between tokens, with the key taken over. */
  function AfterString(fs: seq<Frame>, reading: bool, key: string): State {
    if reading && fs != [] then Quiet(WithTop(fs, fs[|fs| - 1].(key := Some(key)))) else Quiet(fs)
  }

  /** What the key buffer holds after one more byte. */
  function Buffered(reading: bool, buf: string, c: char): string {
    if reading then buf + [c] else buf
  }

  lemma PlainInString(fs: seq<Frame>, reading: bool, buf: string, c: char, rest: string, i: nat, j: nat)
    requires c != '\\' && c != '"' && j == i + 1
    ensures Run(InString(fs, reading, buf), [c] + rest, i) == Run(InString(fs, reading, Buffered(reading, buf, c)), rest, j)
  {
    hide Run;
    Byte1(InString(fs, reading, buf), c, rest, i, j);
  }

  lemma EscapeInString(fs: seq<Frame>, reading: bool, buf: string, c: char, rest: string, i: nat, j: nat)
    requires j == i + 2
    ensures Run(InString(fs, reading, buf), "\\" + ([c] + rest), i) ==
            Run(InString(fs, reading, Buffered(reading, buf, c)), rest, j)
  {
    hide Run;
    var st := InString(fs, reading, buf);
    Byte1(st, '\\', [c] + rest, i, i + 1);
    Byte1(st.(esc := true), c, rest, i + 1, j);
  }

  lemma CloseString(fs: seq<Frame>, reading: bool, buf: string, tail: string, i: nat, j: nat)
    requires j == i + 1 && (!reading ==> buf == "")
    ensures Run(InString(fs, reading, buf), "\"" + tail, i) == Run(AfterString(fs, reading, buf), tail, j)
  {
    hide Run;
    Byte1(InString(fs, reading, buf), '"', tail, i, j);
  }

  lemma {:induction false} RunBody(fs: seq<Frame>, reading: bool, buf: string, raw: string, tail: string, i: nat, j: nat)
    requires IsScanned(raw) && j == i + |raw| + 1 && (!reading ==> buf == "")
    ensures Run(InString(fs, reading, buf), raw + ("\"" + tail), i) ==
            Run(AfterString(fs, reading, buf + MachineKey(raw)), tail, j)
    decreases |raw|
  {
    hide Run, InString, AfterString, Buffered;
    if raw == "" {
      EmptyLeft("\"" + tail);
      EmptyRight(buf);
      CloseString(fs, reading, buf, tail, i, j);
    } else if raw[0] == '\\' {
      var rest := raw[2..] + ("\"" + tail);
      TwoAndRest(raw, "\"" + tail);
      EscapeInString(fs, reading, buf, raw[1], rest, i, i + 2);
      AnyBuffer(fs, reading, buf, raw[1], MachineKey(raw[2..]), [raw[1]]);
      RunBody(fs, reading, Buffered(reading, buf, raw[1]), raw[2..], tail, i + 2, j);
    } else {
      var rest := raw[1..] + ("\"" + tail);
      OneAndRest(raw, "\"" + tail);
      PlainInString(fs, reading, buf, raw[0], rest, i, i + 1);
      AnyBuffer(fs, reading, buf, raw[0], MachineKey(raw[1..]), raw[..1]);
      RunBody(fs, reading, Buffered(reading, buf, raw[0]), raw[1..], tail, i + 1, j);
    }
  }

  lemma OneAndRest(raw: string, tail: string)
    requires raw != ""
    ensures raw + tail == [raw[0]] + (raw[1..] + tail) && raw[..1] == [raw[0]]
  {
  }

  lemma TwoAndRest(raw: string, tail: string)
    requires |raw| > 1
    ensures raw + tail == [raw[0]] + ([raw[1]] + (raw[2..] + tail))
  {
  }

  /** Outside keys the buffer is never looked at. */
  lemma AnyBuffer(fs: seq<Frame>, reading: bool, buf: string, c: char, key: string, one: string)
    requires one == [c] && (!reading ==> buf == "")
    ensures AfterString(fs, reading, Buffered(reading, buf, c) + key) == AfterString(fs, reading, buf + (one + key))
    ensures !reading ==> Buffered(reading, buf, c) == ""
  {
    if reading { Assoc(buf, one, key); }
  }

  /** The machine looks for a key next. */
  predicate AwaitsKey(fs: seq<Frame>) { fs != [] && fs[|fs| - 1].isObj && fs[|fs| - 1].awaitingKey }

  lemma RunStr(fs: seq<Frame>, raw: string, tail: string, i: nat, j: nat)
    requires IsStrBody(raw) && !AwaitsKey(fs) && !IsTarget(fs) && j == i + |raw| + 2
    ensures Run(Quiet(fs), "\"" + (raw + ("\"" + tail)), i) == Run(Quiet(fs), tail, j)
  {
    hide Run, IsStrBody, IsScanned;
    BodyIsScanned(raw);
    Byte1(Quiet(fs), '"', raw + ("\"" + tail), i, i + 1);
    RunBody(fs, false, "", raw, tail, i + 1, j);
  }

  /** An object's head: the key is read into the frame, and the colon ends the wait for it. */
  lemma RunHead(fs: seq<Frame>, f: Frame, m: Members, tail: string, i: nat, j: nat)
    requires m.Member? && f.isObj && f.awaitingKey && j == i + HeadLen(m)
    requires AllSpace(m.pre) && IsStrBody(m.key) && AllSpace(m.mid) && AllSpace(m.sep)
    ensures Run(Quiet(fs + [f]), PutHead(m, tail), i) ==
            Run(Quiet(fs + [f.(key := Some(MachineKey(m.key)), awaitingKey := false)]), tail, j)
  {
    hide Run, IsStrBody, IsScanned;
    var all := fs + [f];
    var g := f.(key := Some(MachineKey(m.key)));
    var h := g.(awaitingKey := false);
    var s3 := m.mid + (":" + (m.sep + tail));
    var i1, i2 := i + |m.pre|, i + |m.pre| + 1;
    var i3 := i2 + |m.key| + 1;
    var i4 := i3 + |m.mid|;
    RunSpace(all, m.pre, "\"" + (m.key + ("\"" + s3)), i, i1);
    Byte1(Quiet(all), '"', m.key + ("\"" + s3), i1, i2);
    BodyIsScanned(m.key);
    RunBody(all, true, "", m.key, s3, i2, i3);
    assert "" + MachineKey(m.key) == MachineKey(m.key);
    assert WithTop(all, g) == fs + [g];
    RunSpace(fs + [g], m.mid, ":" + (m.sep + tail), i3, i4);
    Byte1(Quiet(fs + [g]), ':', m.sep + tail, i4, i4 + 1);
    assert WithTop(fs + [g], h) == fs + [h];
    RunSpace(fs + [h], m.sep, tail, i4 + 1, j);
  }

  // ----- Values the machine passes over -----

  /** Whether the value holds no target when it stands `depth` containers down, under `key` of a
      container that was itself opened under `name`. */
  predicate Clear(depth: nat, name: Option<string>, key: Option<string>, v: Value)
    decreases v, 0
  {
    && (v.Str? ==> !(depth == 2 && name == Some("metadata") && key == Some("user_id")))
    && (v.Obj? && depth == 1 ==> ClearMembers(2, key, v.members))
  }

  predicate ClearMembers(depth: nat, name: Option<string>, ms: Members)
    decreases ms, 0
  {
    ms.Member? ==> Clear(depth, name, Some(MachineKey(ms.key)), ms.value) && ClearMembers(depth, name, ms.rest)
  }

  /** Only strings two levels down, under `metadata`, can be targets. */
  lemma {:induction false} ElsewhereIsClear(depth: nat, name: Option<string>, ms: Members)
    requires depth > 2 || (depth == 2 && name != Some("metadata"))
    ensures ClearMembers(depth, name, ms)
  {
    if ms.Member? { ElsewhereIsClear(depth, name, ms.rest); }
  }

  function ArrFrame(fs: seq<Frame>): Frame { Frame(false, TopKey(fs), None, false) }

  function ObjFrame(fs: seq<Frame>): Frame { Frame(true, TopKey(fs), None, true) }

  lemma OpenArr(fs: seq<Frame>, tail: string, i: nat, j: nat)
    requires j == i + 1
    ensures Run(Quiet(fs), "[" + tail, i) == Run(Quiet(fs + [ArrFrame(fs)]), tail, j)
  {
    hide Run;
    Byte1(Quiet(fs), '[', tail, i, j);
  }

  lemma OpenObj(fs: seq<Frame>, tail: string, i: nat, j: nat)
    requires j == i + 1
    ensures Run(Quiet(fs), "{" + tail, i) == Run(Quiet(fs + [ObjFrame(fs)]), tail, j)
  {
    hide Run;
    Byte1(Quiet(fs), '{', tail, i, j);
  }

  lemma Close(fs: seq<Frame>, f: Frame, c: char, tail: string, i: nat, j: nat)
    requires j == i + 1 && (c == ']' || c == '}')
    ensures Run(Quiet(fs + [f]), [c] + tail, i) == Run(Quiet(fs), tail, j)
  {
    hide Run;
    Byte1(Quiet(fs + [f]), c, tail, i, j);
    assert (fs + [f])[..|fs + [f]| - 1] == fs;
  }

  function Comma(f: Frame): Frame { if f.isObj then f.(awaitingKey := true) else f }

  lemma RunComma(fs: seq<Frame>, f: Frame, tail: string, i: nat, j: nat)
    requires j == i + 1
    ensures Run(Quiet(fs + [f]), "," + tail, i) == Run(Quiet(fs + [Comma(f)]), tail, j)
  {
    hide Run;
    Byte1(Quiet(fs + [f]), ',', tail, i, j);
    assert WithTop(fs + [f], Comma(f)) == fs + [Comma(f)];
  }

  lemma RunBare(fs: seq<Frame>, tok: string, tail: string, i: nat, j: nat)
    requires IsBareToken(tok) && j == i + |tok|
    ensures Run(Quiet(fs), tok + tail, i) == Run(Quiet(fs), tail, j)
  {
    hide Run;
    forall k | 0 <= k < |tok| ensures IsInert(tok[k]) { assert IsTokenChar(tok[k]); }
    RunInert(fs, tok, tail, i, j);
  }

  /** A value without a target leaves the machine where it was. */
  lemma {:induction false} RunValue(fs: seq<Frame>, f: Frame, v: Value, tail: string, i: nat, j: nat)
    requires WellFormed(v) && !(f.isObj && f.awaitingKey) && j == i + Len(v)
    requires Clear(|fs| + 1, f.name, f.key, v)
    ensures Run(Quiet(fs + [f]), Put(v, tail), i) == Run(Quiet(fs + [f]), tail, j)
    decreases v, 0
  {
    hide Run, IsBareToken, IsStrBody, Quiet, PutElems, PutMembers, WellFormedElems, WellFormedMembers, LenElems, LenMembers;
    var all := fs + [f];
    match v
    case Bare(tok) => RunBare(all, tok, tail, i, j);
    case Str(raw) => RunStr(all, raw, tail, i, j);
    case Arr(gap, elems) =>
      var rest := PutElems(elems, "]" + tail);
      var i1, i2 := i + 1, i + 1 + |gap|;
      OpenArr(all, gap + rest, i, i1);
      RunSpace(all + [ArrFrame(all)], gap, rest, i1, i2);
      RunElems(all, ArrFrame(all), elems, tail, i2, j);
    case Obj(gap, members) =>
      var rest := PutMembers(members, "}" + tail);
      var i1, i2 := i + 1, i + 1 + |gap|;
      OpenObj(all, gap + rest, i, i1);
      RunSpace(all + [ObjFrame(all)], gap, rest, i1, i2);
      if |fs| > 0 { ElsewhereIsClear(|all| + 1, f.key, members); }
      RunMembers(all, ObjFrame(all), members, tail, i2, j);
  }

  lemma {:induction false} RunElems(fs: seq<Frame>, f: Frame, es: Elems, tail: string, i: nat, j: nat)
    requires WellFormedElems(es) && !f.isObj && f.key.None? && j == i + LenElems(es) + 1 && |fs| > 0
    ensures Run(Quiet(fs + [f]), PutElems(es, "]" + tail), i) == Run(Quiet(fs), tail, j)
    decreases es, 0
  {
    hide Run, Quiet, Put, WellFormed, Len;
    if es.NoElem? {
      Close(fs, f, ']', tail, i, j);
    } else {
      var more := PutMoreElems(es.rest, "]" + tail);
      var i1 := i + |es.pre|;
      var i2 := i1 + Len(es.value);
      var i3 := i2 + |es.post|;
      RunSpace(fs + [f], es.pre, Put(es.value, es.post + more), i, i1);
      RunValue(fs, f, es.value, es.post + more, i1, i2);
      RunSpace(fs + [f], es.post, more, i2, i3);
      if es.rest.NoElem? {
        Close(fs, f, ']', tail, i3, j);
      } else {
        RunComma(fs, f, PutElems(es.rest, "]" + tail), i3, i3 + 1);
        RunElems(fs, f, es.rest, tail, i3 + 1, j);
      }
    }
  }

  lemma {:induction false} RunMembers(fs: seq<Frame>, f: Frame, ms: Members, tail: string, i: nat, j: nat)
    requires WellFormedMembers(ms) && f.isObj && f.awaitingKey && j == i + LenMembers(ms) + 1
    requires ClearMembers(|fs| + 1, f.name, ms)
    ensures Run(Quiet(fs + [f]), PutMembers(ms, "}" + tail), i) == Run(Quiet(fs), tail, j)
    decreases ms, 0
  {
    hide Run, Quiet, Put, WellFormed, Len, Clear, PutHead;
    if ms.NoMember? {
      Close(fs, f, '}', tail, i, j);
    } else {
      var more := PutMoreMembers(ms.rest, "}" + tail);
      var g := f.(key := Some(MachineKey(ms.key)), awaitingKey := false);
      var i1 := i + HeadLen(ms);
      var i2 := i1 + Len(ms.value);
      var i3 := i2 + |ms.post|;
      RunHead(fs, f, ms, Put(ms.value, ms.post + more), i, i1);
      RunValue(fs, g, ms.value, ms.post + more, i1, i2);
      RunSpace(fs + [g], ms.post, more, i2, i3);
      if ms.rest.NoMember? {
        Close(fs, g, '}', tail, i3, j);
      } else {
        RunComma(fs, g, PutMembers(ms.rest, "}" + tail), i3, i3 + 1);
        RunMembers(fs, Comma(g), ms.rest, tail, i3 + 1, j);
      }
    }
  }
}
