/** Finding the account uuid of a request body (`src/account_uuid.rs`): the non-backtracking
    matcher, and the streaming machine around it. */
module UuidMachine {
  import opened Options

  /** The escaped `account_uuid":"` that stands before the value. */
  const PREFIX := "account_uuid\\\":\\\""

  // ----- The first occurrence of a pattern -----

  /** `windows(n).position`: where `pat` first occurs in `s`. */
  function FirstAt(s: string, pat: string): Option<nat> {
    if |s| < |pat| then None
    else if s[..|pat|] == pat then Some(0)
    else if |s| == 0 then None
    else Plus(FirstAt(s[1..], pat), 1)
  }

  function Plus(x: Option<nat>, n: nat): Option<nat> {
    if x.None? then None else Some(x.value + n)
  }

  /** An occurrence of `pat` starts at `k`. */
  predicate OccursAt(s: string, pat: string, k: nat) {
    k + |pat| <= |s| && s[k..k + |pat|] == pat
  }

  lemma OccursLater(s: string, pat: string, drop: nat, k: nat)
    requires drop <= |s|
    ensures OccursAt(s[drop..], pat, k) <==> OccursAt(s, pat, drop + k)
  {
    if k + |pat| + drop <= |s| { assert s[drop..][k..k + |pat|] == s[drop + k..drop + k + |pat|]; }
  }

  lemma {:induction false} FirstAtSound(s: string, pat: string)
    requires FirstAt(s, pat).Some?
    ensures OccursAt(s, pat, FirstAt(s, pat).value)
  {
    if s[..|pat|] != pat {
      FirstAtSound(s[1..], pat);
      OccursLater(s, pat, 1, FirstAt(s[1..], pat).value);
    }
  }

  /** Every occurrence is at or behind the first. */
  lemma {:induction false} FirstAtComplete(s: string, pat: string, k: nat)
    requires OccursAt(s, pat, k) && |pat| > 0
    ensures FirstAt(s, pat).Some? && FirstAt(s, pat).value <= k
  {
    if s[..|pat|] != pat {
      OccursLater(s, pat, 1, k - 1);
      FirstAtComplete(s[1..], pat, k - 1);
    }
  }

  /** How many bytes of `s` the matcher reads to complete `pat` from state `pos`: on a mismatch it
      falls back to state 1 or 0 only. */
  function Match(pat: string, pos: nat, s: string): Option<nat>
    requires pos < |pat| && |pat| > 1
    decreases |s|
  {
    if |s| == 0 then None
    else if s[0] == pat[pos] then
      if pos + 1 == |pat| then Some(1) else Plus(Match(pat, pos + 1, s[1..]), 1)
    else Plus(Match(pat, Fallback(pat, s[0]), s[1..]), 1)
  }

  function Fallback(pat: string, c: char): (pos: nat)
    requires |pat| > 1
    ensures pos < |pat|
  {
    if c == pat[0] then 1 else 0
  }

  /** The first byte of the pattern does not recur in it. */
  predicate FreshStart(pat: string) {
    |pat| > 1 && forall k :: 0 < k < |pat| ==> pat[k] != pat[0]
  }

  /** Where the matcher ends when the first occurrence is `at`, `pos` bytes of it already read. */
  function EndOf(at: Option<nat>, n: nat, pos: nat): Option<nat>
    requires pos <= n
  {
    if at.None? then None else Some(at.value + n - pos)
  }

  /** The text with the bytes already matched put back in front. */
  function Held(pat: string, pos: nat, s: string): string
    requires pos <= |pat|
  {
    pat[..pos] + s
  }

  /** The matcher ends where the first occurrence does. */
  lemma {:induction false} MatchIsFirst(pat: string, pos: nat, s: string)
    requires FreshStart(pat) && pos < |pat|
    ensures Match(pat, pos, s) == EndOf(FirstAt(Held(pat, pos, s), pat), |pat|, pos)
    decreases |s|, 1
  {
    hide FirstAt, Held;
    if |s| == 0 {
      MatchNothing(pat, pos, s);
    } else if s[0] == pat[pos] {
      MatchAfterHit(pat, pos, s);
    } else {
      MatchAfterMiss(pat, pos, s);
    }
  }

  lemma {:induction false} MatchAfterHit(pat: string, pos: nat, s: string)
    requires FreshStart(pat) && pos < |pat| && |s| > 0 && s[0] == pat[pos]
    ensures Match(pat, pos, s) == EndOf(FirstAt(Held(pat, pos, s), pat), |pat|, pos)
    decreases |s|, 0
  {
    hide FirstAt, Held;
    MatchOne(pat, pos, s);
    if pos + 1 < |pat| { MatchIsFirst(pat, pos + 1, s[1..]); } else { AtFront(pat, s[1..]); }
  }

  lemma {:induction false} MatchAfterMiss(pat: string, pos: nat, s: string)
    requires FreshStart(pat) && pos < |pat| && |s| > 0 && s[0] != pat[pos]
    ensures Match(pat, pos, s) == EndOf(FirstAt(Held(pat, pos, s), pat), |pat|, pos)
    decreases |s|, 0
  {
    hide FirstAt, Held, Fallback;
    NotInMatched(pat, pos, s);
    MatchIsFirst(pat, Fallback(pat, s[0]), s[1..]);
    AfterMismatch(pat, s);
  }

  lemma MatchNothing(pat: string, pos: nat, s: string)
    requires pos < |pat| && |pat| > 1 && |s| == 0
    ensures FirstAt(Held(pat, pos, s), pat).None?
  {
  }

  lemma MatchOne(pat: string, pos: nat, s: string)
    requires pos < |pat| && |s| > 0 && s[0] == pat[pos]
    ensures Held(pat, pos, s) == Held(pat, pos + 1, s[1..])
  {
  }

  lemma AtFront(pat: string, rest: string)
    requires |pat| > 0
    ensures FirstAt(Held(pat, |pat|, rest), pat) == Some(0)
  {
    assert Held(pat, |pat|, rest)[..|pat|] == pat;
  }

  /** The state fallen back to stands for the mismatching byte itself. */
  lemma AfterMismatch(pat: string, s: string)
    requires |pat| > 1 && |s| > 0
    ensures var pos := Fallback(pat, s[0]);
      FirstAt(s, pat) == Plus(FirstAt(Held(pat, pos, s[1..]), pat), 1 - pos)
  {
    hide FirstAt;
    if s[0] == pat[0] {
      MatchOne(pat, 0, s);
      assert Held(pat, 0, s) == s;
    } else {
      assert Held(pat, 0, s[1..]) == s[1..];
      SkipByte(s, pat);
    }
  }

  lemma SkipByte(s: string, pat: string)
    requires |s| > 0 && |pat| > 0 && s[0] != pat[0]
    ensures FirstAt(s, pat) == Plus(FirstAt(s[1..], pat), 1)
  {
    if |s| >= |pat| { assert s[..|pat|][0] == s[0]; }
  }

  /** After a mismatch, no occurrence starts inside the bytes that were matched. */
  lemma NotInMatched(pat: string, pos: nat, s: string)
    requires FreshStart(pat) && pos < |pat| && |s| > 0 && s[0] != pat[pos]
    ensures FirstAt(Held(pat, pos, s), pat) == Plus(FirstAt(s, pat), pos)
  {
    hide FirstAt;
    if pos == 0 {
      assert Held(pat, pos, s) == s;
    } else {
      MissAtFront(Held(pat, pos, s), pat, pos);
      assert Held(pat, pos, s)[1..] == pat[1..pos] + s;
      SkipMatched(pat, 1, pos, s);
    }
  }

  lemma MissAtFront(s: string, pat: string, k: nat)
    requires k < |s| && k < |pat| && s[k] != pat[k]
    ensures FirstAt(s, pat) == Plus(FirstAt(s[1..], pat), 1)
  {
    if |s| >= |pat| { assert s[..|pat|][k] == s[k]; }
  }

  lemma {:induction false} SkipMatched(pat: string, k: nat, pos: nat, s: string)
    requires FreshStart(pat) && 0 < k <= pos < |pat|
    ensures FirstAt(pat[k..pos] + s, pat) == Plus(FirstAt(s, pat), pos - k)
    decreases pos - k
  {
    var all := pat[k..pos] + s;
    if k == pos {
      assert all == s;
    } else {
      assert all[0] == pat[k] && all[1..] == pat[k + 1..pos] + s;
      SkipByte(all, pat);
      SkipMatched(pat, k + 1, pos, s);
    }
  }

  lemma PrefixIsFresh()
    ensures FreshStart(PREFIX) && |PREFIX| == 17
  {
  }

  // ----- The machine -----

  /** A container: the key it was opened under, the current key inside it, and whether the next
      string is a key. */
  datatype Frame = Frame(isObj: bool, name: Option<string>, key: Option<string>, awaitingKey: bool)

  datatype State = State(frames: seq<Frame>, inStr: bool, esc: bool, readingKey: bool, keyBuf: string,
                         target: bool, matchPos: nat, valueStart: Option<nat>, done: bool)

  predicate Valid(st: State) { st.matchPos < |PREFIX| }

  function TopKey(frames: seq<Frame>): Option<string> {
    if frames == [] then None else frames[|frames| - 1].key
  }

  function WithTop(frames: seq<Frame>, f: Frame): seq<Frame>
    requires frames != []
  {
    frames[..|frames| - 1] + [f]
  }

  /** A string here is the value of the object's `user_id`, two levels down, under `metadata`. */
  predicate IsTarget(frames: seq<Frame>) {
    && |frames| == 2 && frames[1].isObj
    && frames[1].name == Some("metadata") && frames[1].key == Some("user_id")
  }

  function MatchByte(st: State, b: char, i: nat): (r: State)
    requires Valid(st)
    ensures Valid(r)
  {
    if b == PREFIX[st.matchPos] then
      if st.matchPos + 1 == |PREFIX| then st.(valueStart := Some(i + 1), matchPos := 0, done := true)
      else st.(matchPos := st.matchPos + 1)
    else st.(matchPos := Fallback(PREFIX, b))
  }

  /** A byte of the target string. Its closing quote ends the target and leaves `inStr` up. */
  function TargetByte(st: State, b: char, i: nat): (r: State)
    requires Valid(st)
    ensures Valid(r)
  {
    if st.esc then MatchByte(st.(esc := false), b, i)
    else if b == '\\' then MatchByte(st.(esc := true), b, i)
    else if b == '"' then st.(target := false, matchPos := 0)
    else MatchByte(st, b, i)
  }

  /** A byte of any other string. */
  function StrByte(st: State, b: char): (r: State)
    ensures r.matchPos == st.matchPos
  {
    if st.esc then st.(esc := false, keyBuf := if st.readingKey then st.keyBuf + [b] else st.keyBuf)
    else if b == '\\' then st.(esc := true)
    else if b == '"' then
      if st.readingKey then
        var frames := if st.frames == [] then st.frames
                      else WithTop(st.frames, st.frames[|st.frames| - 1].(key := Some(st.keyBuf)));
        st.(inStr := false, frames := frames, keyBuf := "", readingKey := false)
      else st.(inStr := false)
    else st.(keyBuf := if st.readingKey then st.keyBuf + [b] else st.keyBuf)
  }

  /** A byte outside strings. */
  function PlainByte(st: State, b: char): (r: State)
    requires Valid(st)
    ensures Valid(r)
  {
    var fs := st.frames;
    if b == '{' then st.(frames := fs + [Frame(true, TopKey(fs), None, true)])
    else if b == '[' then st.(frames := fs + [Frame(false, TopKey(fs), None, false)])
    else if b == '}' || b == ']' then st.(frames := if fs == [] then [] else fs[..|fs| - 1])
    else if b == ':' then
      st.(frames := if fs == [] then fs else WithTop(fs, fs[|fs| - 1].(awaitingKey := false)))
    else if b == ',' then
      st.(frames := if fs == [] || !fs[|fs| - 1].isObj then fs else WithTop(fs, fs[|fs| - 1].(awaitingKey := true)))
    else if b == '"' then
      if fs != [] && fs[|fs| - 1].isObj && fs[|fs| - 1].awaitingKey then
        st.(readingKey := true, keyBuf := "", inStr := true, esc := false)
      else
        var value := st.(inStr := true, esc := false, readingKey := false);
        if IsTarget(fs) then value.(target := true, matchPos := 0) else value
    else st
  }

  function Step(st: State, b: char, i: nat): (r: State)
    requires Valid(st)
    ensures Valid(r)
  {
    if st.target then TargetByte(st, b, i) else if st.inStr then StrByte(st, b) else PlainByte(st, b)
  }

  /** The machine over the bytes of `s`, the first of which is at offset `i`; it stops when done. */
  function Run(st: State, s: string, i: nat): (r: State)
    requires Valid(st)
    ensures Valid(r)
    decreases |s|
  {
    if s == "" || st.done then st else Run(Step(st, s[0], i), s[1..], i + 1)
  }

  const START := State([], false, false, false, "", false, 0, None, false)

  /** The streaming locator as it runs: an object whose fields each byte updates. */
  class Patcher {
    var frames: seq<Frame>
    var inStr: bool
    var esc: bool
    var readingKey: bool
    var keyBuf: string
    var target: bool
    var matchPos: nat
    var valueStart: Option<nat>
    var done: bool

    function Abs(): State
      reads this
    {
      State(frames, inStr, esc, readingKey, keyBuf, target, matchPos, valueStart, done)
    }

    constructor ()
      ensures Abs() == START
    {
      frames, inStr, esc, readingKey, keyBuf := [], false, false, false, "";
      target, matchPos, valueStart, done := false, 0, None, false;
    }

    method MatchNext(b: char, i: nat)
      requires Valid(Abs())
      modifies this
      ensures Abs() == MatchByte(old(Abs()), b, i)
    {
      if b == PREFIX[matchPos] {
        matchPos := matchPos + 1;
        if matchPos == |PREFIX| {
          valueStart := Some(i + 1);
          matchPos := 0;
          done := true;
        }
      } else {
        matchPos := if b == PREFIX[0] then 1 else 0;
      }
    }

    method ReadTarget(b: char, i: nat)
      requires Valid(Abs())
      modifies this
      ensures Abs() == TargetByte(old(Abs()), b, i)
    {
      if esc {
        esc := false;
        MatchNext(b, i);
      } else if b == '\\' {
        esc := true;
        MatchNext(b, i);
      } else if b == '"' {
        target := false;
        matchPos := 0;
      } else {
        MatchNext(b, i);
      }
    }

    method ReadStr(b: char)
      modifies this
      ensures Abs() == StrByte(old(Abs()), b)
    {
      if esc {
        esc := false;
        if readingKey { keyBuf := keyBuf + [b]; }
      } else if b == '\\' {
        esc := true;
      } else if b == '"' {
        inStr := false;
        if readingKey {
          if frames != [] { frames := WithTop(frames, frames[|frames| - 1].(key := Some(keyBuf))); }
          keyBuf := "";
          readingKey := false;
        }
      } else if readingKey {
        keyBuf := keyBuf + [b];
      }
    }

    method ReadPlain(b: char)
      requires Valid(Abs())
      modifies this
      ensures Abs() == PlainByte(old(Abs()), b)
    {
      if b == '{' {
        frames := frames + [Frame(true, TopKey(frames), None, true)];
      } else if b == '[' {
        frames := frames + [Frame(false, TopKey(frames), None, false)];
      } else if b == '}' || b == ']' {
        if frames != [] { frames := frames[..|frames| - 1]; }
      } else if b == ':' {
        if frames != [] { frames := WithTop(frames, frames[|frames| - 1].(awaitingKey := false)); }
      } else if b == ',' {
        if frames != [] && frames[|frames| - 1].isObj {
          frames := WithTop(frames, frames[|frames| - 1].(awaitingKey := true));
        }
      } else if b == '"' {
        inStr := true;
        esc := false;
        if frames != [] && frames[|frames| - 1].isObj && frames[|frames| - 1].awaitingKey {
          readingKey := true;
          keyBuf := "";
        } else {
          readingKey := false;
          if IsTarget(frames) {
            target := true;
            matchPos := 0;
          }
        }
      }
    }

    /** Scan the whole buffer, stopping at the first match. */
    method Locate(body: string) returns (start: Option<nat>)
      requires Abs() == START
      modifies this
      ensures start == Run(START, body, 0).valueStart
    {
      var i := 0;
      while i < |body| && !done
        invariant 0 <= i <= |body| && Valid(Abs())
        invariant Run(START, body, 0) == Run(Abs(), body[i..], i)
      {
        var b := body[i];
        assert body[i..][0] == b && body[i..][1..] == body[i + 1..];
        if target { ReadTarget(b, i); } else if inStr { ReadStr(b); } else { ReadPlain(b); }
        i := i + 1;
      }
      start := valueStart;
    }
  }
}
