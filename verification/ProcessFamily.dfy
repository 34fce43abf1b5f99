/** Finding a process and everything it started (`src/codex_cli_login.rs`): a worklist over the
    process table, which may hold cycles of parents. */
module ProcessFamily {
  import opened Options

  datatype Identity = Identity(pid: nat, startTime: nat)

  datatype Process = Process(identity: Identity, parent: Option<nat>)

  /** A pid with a start time that is known and unchanged names the same process. */
  predicate IsCurrent(expected: Identity, current: Identity) {
    expected.pid == current.pid && expected.startTime > 0 && expected.startTime == current.startTime
  }

  /** A table holds each pid once. */
  predicate IsTable(table: seq<Process>) {
    forall i, j :: 0 <= i < j < |table| ==> table[i].identity.pid != table[j].identity.pid
  }

  predicate IsChild(table: seq<Process>, parent: nat, pid: nat) {
    exists i :: 0 <= i < |table| && table[i].identity.pid == pid && table[i].parent == Some(parent)
  }

  /** A chain of children from `root` to `pid`. */
  predicate IsLine(table: seq<Process>, root: nat, line: seq<nat>, pid: nat) {
    if line == [] then pid == root
    else
      var before := line[..|line| - 1];
      IsChild(table, line[|line| - 1], pid) && IsLine(table, root, before, line[|line| - 1])
  }

  /** `pid` is `root` or descends from it. */
  ghost predicate Descends(table: seq<Process>, root: nat, pid: nat) {
    exists line :: IsLine(table, root, line, pid)
  }

  predicate HasPid(family: seq<Identity>, pid: nat) {
    exists k :: 0 <= k < |family| && family[k].pid == pid
  }

  predicate Distinct(family: seq<Identity>) {
    forall i, j :: 0 <= i < j < |family| ==> family[i].pid != family[j].pid
  }

  predicate FromTable(family: seq<Identity>, table: seq<Process>) {
    forall k :: 0 <= k < |family| ==> InTable(family[k], table)
  }

  predicate InTable(id: Identity, table: seq<Process>) {
    exists i :: 0 <= i < |table| && table[i].identity == id
  }

  /** Every child of the member `id` is a member. */
  predicate ChildrenIn(table: seq<Process>, id: Identity, family: seq<Identity>) {
    forall i :: 0 <= i < |table| && table[i].parent == Some(id.pid) ==> HasPid(family, table[i].identity.pid)
  }

  // ----- The worklist -----

  /** `family_of`: the root and everything descended from it, or nothing when the root's pid is
      gone or names another process by now. */
  method FamilyOf(table: seq<Process>, root: Identity) returns (family: seq<Identity>)
    requires IsTable(table)
    ensures family == [] <==> !IsRunning(table, root)
    ensures IsRunning(table, root) ==>
      && family[0] == root && Distinct(family) && FromTable(family, table)
      && forall pid :: HasPid(family, pid) <==> Descends(table, root.pid, pid)
  {
    var found := Find(table, root.pid);
    if found.None? { return []; }
    if !IsCurrent(root, found.value.identity) { return []; }
    family := [root];
    var next := 0;
    Start(table, root);
    while next < |family|
      invariant 0 <= next <= |family| <= |table| && family != [] && family[0] == root
      invariant Distinct(family) && FromTable(family, table) && AllDescend(table, root.pid, family)
      invariant forall k :: 0 <= k < next ==> ChildrenIn(table, family[k], family)
      decreases |table| - next
    {
      var more := AddChildren(table, root.pid, family, next);
      assert more[0] == more[..|family|][0];
      family := more;
      next := next + 1;
    }
    forall pid ensures HasPid(family, pid) <==> Descends(table, root.pid, pid) {
      Complete(table, root.pid, family, pid);
    }
  }

  /** The table has the root's pid with the start time it had, which was known. */
  predicate IsRunning(table: seq<Process>, root: Identity) { root.startTime > 0 && InTable(root, table) }

  method Find(table: seq<Process>, pid: nat) returns (p: Option<Process>)
    requires IsTable(table)
    ensures p.Some? ==> p.value in table && p.value.identity.pid == pid
    ensures p.Some? ==> forall i :: 0 <= i < |table| && table[i].identity.pid == pid ==> table[i] == p.value
    ensures p.None? ==> forall i :: 0 <= i < |table| ==> table[i].identity.pid != pid
  {
    for i := 0 to |table|
      invariant forall k :: 0 <= k < i ==> table[k].identity.pid != pid
    {
      if table[i].identity.pid == pid { return Some(table[i]); }
    }
    p := None;
  }

  ghost predicate AllDescend(table: seq<Process>, root: nat, family: seq<Identity>) {
    forall k :: 0 <= k < |family| ==> Descends(table, root, family[k].pid)
  }

  lemma Start(table: seq<Process>, root: Identity)
    requires InTable(root, table)
    ensures |table| >= 1 && Distinct([root]) && FromTable([root], table) && AllDescend(table, root.pid, [root])
  {
    assert IsLine(table, root.pid, [], root.pid);
  }

  /** One pass over the table: the children of the member at `next` that are not members yet are
      appended. */
  method AddChildren(table: seq<Process>, root: nat, family: seq<Identity>, next: nat)
    returns (more: seq<Identity>)
    requires IsTable(table) && next < |family| <= |table|
    requires Distinct(family) && FromTable(family, table) && AllDescend(table, root, family)
    requires forall k :: 0 <= k < next ==> ChildrenIn(table, family[k], family)
    ensures |family| <= |more| <= |table| && more[..|family|] == family
    ensures Distinct(more) && FromTable(more, table) && AllDescend(table, root, more)
    ensures forall k :: 0 <= k <= next ==> ChildrenIn(table, more[k], more)
  {
    hide Descends, FromTable, Distinct, AllDescend;
    more := family;
    var parent := family[next].pid;
    for i := 0 to |table|
      invariant |family| <= |more| <= |table| && more[..|family|] == family
      invariant Distinct(more) && FromTable(more, table) && AllDescend(table, root, more)
      invariant forall j :: 0 <= j < i && table[j].parent == Some(parent) ==> HasPid(more, table[j].identity.pid)
    {
      var process := table[i];
      if process.parent == Some(parent) && !HasPid(more, process.identity.pid) {
        assert more[next] == more[..|family|][next];
        AddMember(table, root, more, next, i);
        Grows(more, process.identity);
        assert (more + [process.identity])[..|family|] == more[..|family|];
        more := more + [process.identity];
      }
    }
    forall k | 0 <= k <= next ensures ChildrenIn(table, more[k], more) {
      assert more[k] == more[..|family|][k];
      if k < next { StillIn(table, family[k], family, more); }
    }
  }

  lemma Grows(family: seq<Identity>, id: Identity)
    ensures HasPid(family + [id], id.pid)
    ensures forall pid :: HasPid(family, pid) ==> HasPid(family + [id], pid)
  {
    var more := family + [id];
    assert more[|family|] == id;
    forall pid | HasPid(family, pid) ensures HasPid(more, pid) {
      var k :| 0 <= k < |family| && family[k].pid == pid;
      assert more[k].pid == pid;
    }
  }

  lemma StillIn(table: seq<Process>, id: Identity, family: seq<Identity>, more: seq<Identity>)
    requires ChildrenIn(table, id, family) && |family| <= |more| && more[..|family|] == family
    ensures ChildrenIn(table, id, more)
  {
    forall i | 0 <= i < |table| && table[i].parent == Some(id.pid)
      ensures HasPid(more, table[i].identity.pid)
    {
      var k :| 0 <= k < |family| && family[k].pid == table[i].identity.pid;
      assert more[k] == more[..|family|][k];
    }
  }

  lemma AddMember(table: seq<Process>, root: nat, family: seq<Identity>, parent: nat, i: nat)
    requires IsTable(table) && parent < |family| && i < |table|
    requires Distinct(family) && FromTable(family, table) && AllDescend(table, root, family)
    requires table[i].parent == Some(family[parent].pid) && !HasPid(family, table[i].identity.pid)
    ensures var more := family + [table[i].identity];
      Distinct(more) && FromTable(more, table) && AllDescend(table, root, more) && |more| <= |table|
  {
    var id := table[i].identity;
    var more := family + [id];
    NextInLine(table, root, family[parent].pid, id.pid);
    assert InTable(id, table);
    forall k | 0 <= k < |more| ensures InTable(more[k], table) && Descends(table, root, more[k].pid) {
      if k < |family| { assert more[k] == family[k]; }
    }
    assert Distinct(more) by {
      forall k | 0 <= k < |family| ensures more[k].pid != id.pid { assert more[k] == family[k]; }
    }
    NoMoreThanTable(more, table);
  }

  lemma NextInLine(table: seq<Process>, root: nat, parent: nat, pid: nat)
    requires Descends(table, root, parent) && IsChild(table, parent, pid)
    ensures Descends(table, root, pid)
  {
    var line :| IsLine(table, root, line, parent);
    assert (line + [parent])[..|line|] == line;
    assert IsLine(table, root, line + [parent], pid);
  }

  /** Distinct members of the table are no more than the table. */
  lemma {:induction false} NoMoreThanTable(family: seq<Identity>, table: seq<Process>)
    requires Distinct(family) && FromTable(family, table)
    ensures |family| <= |table|
    decreases |table|
  {
    if family != [] {
      var id := family[0];
      assert InTable(id, table);
      var i :| 0 <= i < |table| && table[i].identity == id;
      var rest, others := family[1..], table[..i] + table[i + 1..];
      forall k | 0 <= k < |rest| ensures InTable(rest[k], others) {
        assert rest[k] == family[k + 1] && InTable(family[k + 1], table);
        var j :| 0 <= j < |table| && table[j].identity == rest[k];
        assert j != i;
        assert others[if j < i then j else j - 1] == table[j];
      }
      NoMoreThanTable(rest, others);
    }
  }

  /** A set of descendants that holds the root and every child of its members holds every
      descendant. */
  lemma Complete(table: seq<Process>, root: nat, family: seq<Identity>, pid: nat)
    requires family != [] && family[0].pid == root && AllDescend(table, root, family)
    requires forall k :: 0 <= k < |family| ==> ChildrenIn(table, family[k], family)
    ensures HasPid(family, pid) <==> Descends(table, root, pid)
  {
    if Descends(table, root, pid) {
      var line :| IsLine(table, root, line, pid);
      LineInside(table, root, family, line, pid);
    }
  }

  lemma {:induction false} LineInside(table: seq<Process>, root: nat, family: seq<Identity>, line: seq<nat>, pid: nat)
    requires family != [] && family[0].pid == root && IsLine(table, root, line, pid)
    requires forall k :: 0 <= k < |family| ==> ChildrenIn(table, family[k], family)
    ensures HasPid(family, pid)
    decreases |line|
  {
    if line != [] {
      var parent := line[|line| - 1];
      LineInside(table, root, family, line[..|line| - 1], parent);
      var k :| 0 <= k < |family| && family[k].pid == parent;
      assert ChildrenIn(table, family[k], family);
    }
  }
}
