/** CPU time of a process and everything below it, from one listing of processes. */
module ProcessTree {
  import opened Text
  import opened Reachability

  /** A line of the listing; `cpuMs` is missing when the time cannot be parsed. */
  datatype Row = Row(pid: nat, ppid: nat, cpuMs: Option<nat>)

  function CpuByPid(rows: seq<Row>): map<nat, nat> {
    if rows == [] then map[]
    else
      var r := rows[|rows| - 1];
      var m := CpuByPid(rows[..|rows| - 1]);
      if r.cpuMs.Some? then m[r.pid := r.cpuMs.value] else m
  }

  function ChildrenOf(rows: seq<Row>, parent: nat): seq<nat> {
    if rows == [] then []
    else
      var r := rows[|rows| - 1];
      var init := ChildrenOf(rows[..|rows| - 1], parent);
      if r.cpuMs.Some? && r.ppid == parent then init + [r.pid] else init
  }

  function NonZero(pids: seq<nat>): seq<nat> {
    if pids == [] then []
    else NonZero(pids[..|pids| - 1]) + if pids[|pids| - 1] != 0 then [pids[|pids| - 1]] else []
  }

  /** Child processes with a usable pid: the edges of the process graph. */
  function Edges(rows: seq<Row>): nat -> seq<nat> {
    (p: nat) => NonZero(ChildrenOf(rows, p))
  }

  function CpuOf(cpu: map<nat, nat>, pid: nat): nat {
    if pid in cpu then cpu[pid] else 0
  }

  /** The sum over a set, each pid counted once. */
  ghost function Total(cpu: map<nat, nat>, pids: set<nat>): nat {
    if pids == {} then 0
    else
      var p :| p in pids;
      CpuOf(cpu, p) + Total(cpu, pids - {p})
  }

  lemma {:induction false} TotalAdd(cpu: map<nat, nat>, pids: set<nat>, x: nat)
    requires x !in pids
    ensures Total(cpu, pids + {x}) == Total(cpu, pids) + CpuOf(cpu, x)
    decreases pids
  {
    var all := pids + {x};
    var p :| p in all && Total(cpu, all) == CpuOf(cpu, p) + Total(cpu, all - {p});
    if p == x {
      assert all - {p} == pids;
    } else {
      assert all - {p} == (pids - {p}) + {x};
      TotalAdd(cpu, pids - {p}, x);
      TotalAdd(cpu, pids - {p}, p);
      assert (pids - {p}) + {p} == pids;
    }
  }

  lemma {:induction false} ChildrenListed(rows: seq<Row>, parent: nat)
    ensures forall c <- ChildrenOf(rows, parent) :: c in Pids(rows)
  {
    if rows != [] {
      ChildrenListed(rows[..|rows| - 1], parent);
    }
  }

  function Pids(rows: seq<Row>): set<nat> {
    if rows == [] then {} else Pids(rows[..|rows| - 1]) + {rows[|rows| - 1].pid}
  }

  /** Two maps filled from the rows, as the first loop does. */
  method ReadRows(rows: seq<Row>) returns (children: map<nat, seq<nat>>, cpu: map<nat, nat>)
    ensures cpu == CpuByPid(rows)
    ensures forall p: nat :: (if p in children then children[p] else []) == ChildrenOf(rows, p)
  {
    children, cpu := map[], map[];
    for i := 0 to |rows|
      invariant cpu == CpuByPid(rows[..i])
      invariant forall p: nat :: (if p in children then children[p] else []) == ChildrenOf(rows[..i], p)
    {
      assert rows[..i + 1][..i] == rows[..i];
      var r := rows[i];
      if r.cpuMs.None? {
        continue;
      }
      cpu := cpu[r.pid := r.cpuMs.value];
      var siblings := if r.ppid in children then children[r.ppid] else [];
      children := children[r.ppid := siblings + [r.pid]];
    }
    assert rows[..|rows|] == rows;
  }

  lemma {:induction false} NonZeroConcat(a: seq<nat>, b: seq<nat>)
    ensures NonZero(a + b) == NonZero(a) + NonZero(b)
  {
    if b == [] {
      assert a + b == a;
    } else {
      assert (a + b)[..|a + b| - 1] == a + b[..|b| - 1];
      NonZeroConcat(a, b[..|b| - 1]);
    }
  }

  /** What the walk keeps, with its running total. */
  ghost predicate Touring(rows: seq<Row>, root: nat, seen: set<nat>, stack: seq<nat>, total: nat) {
    && Walking(seen, NonZero(stack), root, Edges(rows))
    && total == Total(CpuByPid(rows), seen)
    && seen <= Pids(rows) + {root} && (forall x <- stack :: x in Pids(rows) + {root})
  }

  lemma TourStarts(rows: seq<Row>, root: nat)
    requires root != 0
    ensures Touring(rows, root, {}, [root], 0)
  {
    assert [root][..0] == [] && NonZero([root]) == [root];
    WalkStarts(root, Edges(rows));
  }

  /** Popping a zero pid or one already seen. */
  lemma PopSkips(rows: seq<Row>, root: nat, seen: set<nat>, stack: seq<nat>, total: nat)
    requires Touring(rows, root, seen, stack, total) && stack != []
    requires stack[|stack| - 1] == 0 || stack[|stack| - 1] in seen
    ensures Touring(rows, root, seen, stack[..|stack| - 1], total)
  {
    var usable, rest := NonZero(stack), NonZero(stack[..|stack| - 1]);
    if stack[|stack| - 1] != 0 {
      assert usable == rest + [stack[|stack| - 1]];
      assert usable[..|usable| - 1] == rest;
      WalkSkips(seen, usable, root, Edges(rows));
    } else {
      assert usable == rest;
    }
  }

  /** Popping a new pid and pushing its children. */
  lemma PopVisits(rows: seq<Row>, root: nat, seen: set<nat>, stack: seq<nat>, total: nat)
    requires Touring(rows, root, seen, stack, total) && stack != []
    requires stack[|stack| - 1] != 0 && stack[|stack| - 1] !in seen
    ensures var pid := stack[|stack| - 1];
            Touring(rows, root, seen + {pid}, stack[..|stack| - 1] + ChildrenOf(rows, pid), total + CpuOf(CpuByPid(rows), pid))
  {
    var pid, rest := stack[|stack| - 1], stack[..|stack| - 1];
    var usable := NonZero(stack);
    assert usable[..|usable| - 1] == NonZero(rest);
    WalkVisits(seen, usable, root, Edges(rows));
    NonZeroConcat(rest, ChildrenOf(rows, pid));
    TotalAdd(CpuByPid(rows), seen, pid);
    ChildrenListed(rows, pid);
    assert pid in stack;
  }

  lemma TourEnds(rows: seq<Row>, root: nat, seen: set<nat>, total: nat)
    requires Touring(rows, root, seen, [], total)
    ensures Least(seen, root, Edges(rows)) && total == Total(CpuByPid(rows), seen)
  {
    WalkEnds(seen, root, Edges(rows));
  }

  /** The walk of `readProcessTreeCpuMs`: on any listing, with cycles and repeated rows,
      it ends with the CPU time of the reachable processes, each counted once. */
  method ReadProcessTreeCpuMs(rows: seq<Row>, rootPid: nat) returns (r: Option<nat>)
    ensures r.None? <==> rootPid == 0 || rootPid !in CpuByPid(rows)
    ensures r.Some? ==> exists reached: set<nat> :: Least(reached, rootPid, Edges(rows)) && r.value == Total(CpuByPid(rows), reached)
  {
    if rootPid == 0 {
      return None;
    }
    var childrenByParent, cpuByPid := ReadRows(rows);
    if rootPid !in cpuByPid {
      return None;
    }
    var totalCpuMs: nat, seen: set<nat>, stack := 0, {}, [rootPid];
    TourStarts(rows, rootPid);
    while |stack| > 0
      invariant Touring(rows, rootPid, seen, stack, totalCpuMs)
      decreases Pids(rows) + {rootPid} - seen, |stack|
    {
      var pid := stack[|stack| - 1];
      if pid == 0 || pid in seen {
        PopSkips(rows, rootPid, seen, stack, totalCpuMs);
        stack := stack[..|stack| - 1];
        continue;
      }
      PopVisits(rows, rootPid, seen, stack, totalCpuMs);
      assert pid in stack;
      stack := stack[..|stack| - 1];
      seen := seen + {pid};
      totalCpuMs := totalCpuMs + CpuOf(cpuByPid, pid);
      stack := stack + if pid in childrenByParent then childrenByParent[pid] else [];
    }
    TourEnds(rows, rootPid, seen, totalCpuMs);
    r := Some(totalCpuMs);
  }

  // ---------- what the listing says ----------

  /** Row `i` is the last one of its pid with a usable time. */
  predicate DecidesCpu(rows: seq<Row>, pid: nat, ms: nat, i: nat) {
    && i < |rows| && rows[i].pid == pid && rows[i].cpuMs == Some(ms)
    && forall j | i < j < |rows| && rows[j].pid == pid :: rows[j].cpuMs.None?
  }

  /** The last row with a usable time decides the time of its pid. */
  lemma {:induction false} CpuExactly(rows: seq<Row>, pid: nat, ms: nat)
    ensures pid in CpuByPid(rows) && CpuByPid(rows)[pid] == ms <==> exists i: nat :: DecidesCpu(rows, pid, ms, i)
  {
    if rows != [] {
      var n := |rows| - 1;
      CpuExactly(rows[..n], pid, ms);
      if rows[n].pid == pid && rows[n].cpuMs.Some? {
        forall i: nat
          ensures DecidesCpu(rows, pid, ms, i) <==> i == n && rows[n].cpuMs == Some(ms)
        {
        }
        assert DecidesCpu(rows, pid, ms, n) <==> rows[n].cpuMs == Some(ms);
      } else {
        forall i: nat
          ensures DecidesCpu(rows, pid, ms, i) <==> DecidesCpu(rows[..n], pid, ms, i)
        {
        }
      }
    }
  }

  /** A process is a child of another exactly if some row with a usable time says so; pid 0
      is nobody's child. */
  lemma {:induction false} ChildrenExactly(rows: seq<Row>, parent: nat, child: nat)
    ensures child in Edges(rows)(parent) <==>
              child != 0 && exists r :: r in rows && r.cpuMs.Some? && r.ppid == parent && r.pid == child
  {
    NonZeroLaw(ChildrenOf(rows, parent));
    if rows != [] {
      var n := |rows| - 1;
      ChildrenExactly(rows[..n], parent, child);
      NonZeroLaw(ChildrenOf(rows[..n], parent));
      assert rows == rows[..n] + [rows[n]];
    }
  }

  lemma {:induction false} NonZeroLaw(pids: seq<nat>)
    ensures forall p: nat :: p in NonZero(pids) <==> p in pids && p != 0
  {
    if pids != [] {
      NonZeroLaw(pids[..|pids| - 1]);
      assert pids == pids[..|pids| - 1] + [pids[|pids| - 1]];
    }
  }
}
