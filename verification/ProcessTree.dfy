/** Resource totals of a process tree: every known process whose chain of parents leads to the root. */
module ProcessTree {
  import opened Common

  datatype Process = Process(parent: nat, rssKib: nat)

  type Table = map<nat, Process>

  /** A chain of parent links in the table that ends at `root`. */
  ghost predicate Chain(table: Table, path: seq<nat>, root: nat) {
    && path != [] && path[|path| - 1] == root
    && forall i :: 0 <= i < |path| - 1 ==> path[i] in table && table[path[i]].parent == path[i + 1]
  }

  ghost predicate Descends(table: Table, pid: nat, root: nat) {
    exists path :: Chain(table, path, root) && path[0] == pid
  }

  predicate Closed(table: Table, selected: set<nat>) {
    forall pid :: pid in table && table[pid].parent in selected ==> pid in selected
  }

  lemma {:induction false} DescendsChild(table: Table, pid: nat, root: nat)
    requires pid in table && Descends(table, table[pid].parent, root)
    ensures Descends(table, pid, root)
  {
    var path :| Chain(table, path, root) && path[0] == table[pid].parent;
    assert Chain(table, [pid] + path, root) && ([pid] + path)[0] == pid;
  }

  lemma {:induction false} ClosedContains(table: Table, selected: set<nat>, path: seq<nat>, root: nat)
    requires Closed(table, selected) && root in selected && Chain(table, path, root)
    ensures path[0] in selected
  {
    if |path| > 1 {
      assert forall i :: 0 <= i < |path| - 1 ==> path[1..][i] == path[i + 1];
      assert table[path[0]].parent == path[1..][0];
      ClosedContains(table, selected, path[1..], root);
    }
  }

  /** The table's keys in the order in which they are visited. */
  predicate Lists(order: seq<nat>, table: Table) {
    && (forall i :: 0 <= i < |order| ==> order[i] in table)
    && forall pid :: pid in table ==> pid in order
  }

  /** The sweep repeats until nothing changes. It stops on every table, cyclic ones included, with
      exactly the processes that descend from the root (and the root itself, known or not). */
  method Select(root: nat, table: Table, order: seq<nat>) returns (selected: set<nat>)
    requires Lists(order, table)
    ensures forall pid :: pid in selected <==> Descends(table, pid, root)
  {
    selected := {root};
    assert Chain(table, [root], root) && [root][0] == root;
    var changed := true;
    while changed
      invariant root in selected && selected <= table.Keys + {root}
      invariant forall pid :: pid in selected ==> Descends(table, pid, root)
      invariant changed || Closed(table, selected)
      decreases table.Keys + {root} - selected, changed
    {
      changed := false;
      ghost var before := selected;
      for i := 0 to |order|
        invariant before <= selected <= table.Keys + {root}
        invariant forall pid :: pid in selected ==> Descends(table, pid, root)
        invariant changed ==> before < selected
        invariant !changed ==> selected == before
        invariant !changed ==> forall j :: 0 <= j < i && table[order[j]].parent in selected ==> order[j] in selected
      {
        var pid := order[i];
        if pid !in selected && table[pid].parent in selected {
          DescendsChild(table, pid, root);
          selected := selected + {pid};
          changed := true;
        }
      }
    }
    forall pid | Descends(table, pid, root) ensures pid in selected {
      var path :| Chain(table, path, root) && path[0] == pid;
      ClosedContains(table, selected, path, root);
    }
  }

  datatype Totals = Totals(samples: seq<nat>, rssKib: nat)

  function Rss(p: Process): nat { p.rssKib }

  /** The tree of the root, restricted to the processes that are known. */
  ghost function Tree(table: Table, root: nat): Table {
    map pid | pid in table && Descends(table, pid, root) :: table[pid]
  }

  /** The known processes among `ids`. */
  ghost function Known(table: Table, ids: set<nat>): Table {
    map pid | pid in table && pid in ids :: table[pid]
  }

  lemma {:induction false} KnownStep(table: Table, ids: set<nat>, pid: nat)
    requires pid !in ids
    ensures pid !in table ==> Known(table, ids + {pid}) == Known(table, ids)
    ensures pid in table ==>
      pid !in Known(table, ids) && Known(table, ids + {pid}) == Known(table, ids)[pid := table[pid]]
  {
  }

  method Collect(ordered: seq<nat>, table: Table) returns (totals: Totals)
    requires Increasing(ordered)
    ensures Increasing(totals.samples) && forall pid :: pid in totals.samples <==> pid in ordered && pid in table
    ensures totals.rssKib == SumBy(Known(table, Elements(ordered)), Rss)
  {
    var samples, rss := [], 0;
    assert Known(table, Elements(ordered[..0])) == map[];
    for i := 0 to |ordered|
      invariant forall pid :: pid in samples <==> pid in ordered[..i] && pid in table
      invariant Increasing(samples)
      invariant rss == SumBy(Known(table, Elements(ordered[..i])), Rss)
    {
      var pid := ordered[i];
      assert Elements(ordered[..i + 1]) == Elements(ordered[..i]) + {pid} by {
        assert ordered[..i + 1] == ordered[..i] + [pid];
      }
      KnownStep(table, Elements(ordered[..i]), pid);
      if pid in table {
        SumByInsert(Known(table, Elements(ordered[..i])), Rss, pid, table[pid]);
        assert forall k :: 0 <= k < |samples| ==> samples[k] in samples && samples[k] < pid;
        samples, rss := samples + [pid], rss + table[pid].rssKib;
      }
    }
    assert ordered[..|ordered|] == ordered;
    totals := Totals(samples, rss);
  }

  method Aggregate(root: nat, table: Table, order: seq<nat>) returns (totals: Totals)
    requires Lists(order, table)
    ensures Increasing(totals.samples) && forall pid :: pid in totals.samples <==> pid in Tree(table, root)
    ensures totals.rssKib == SumBy(Tree(table, root), Rss)
  {
    var selected := Select(root, table, order);
    var ordered := Sorted(selected);
    assert forall pid :: pid in ordered <==> pid in Elements(ordered);
    assert Known(table, selected) == Tree(table, root);
    totals := Collect(ordered, table);
  }
}
