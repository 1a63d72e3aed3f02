/** The compressed-row interference graph (arm64/interference.go): reported pairs are
    counted, laid out in rows, sorted and freed of duplicates. */
module SparseGraph {
  import opened Graphs
  import opened Sorting

  // ----- packed pairs -----

  const Half: nat := 0x1_0000_0000

  /** The lower node in the high half of the word, the higher in the low half. */
  function Pack(a: nat, b: nat): nat {
    if a > b then b * Half + a else a * Half + b
  }

  function Low(p: nat): nat { p / Half }

  function High(p: nat): nat { p % Half }

  lemma Unpack(a: nat, b: nat)
    requires a < Half && b < Half
    ensures Low(Pack(a, b)) == (if a > b then b else a) && High(Pack(a, b)) == (if a > b then a else b)
  {
  }

  /** The pair joins n to m. */
  predicate Joins(p: nat, n: nat, m: nat) {
    (Low(p) == n && High(p) == m) || (Low(p) == m && High(p) == n)
  }

  /** Both ends are nodes, and differ. */
  ghost predicate PairOk(p: nat, nodes: nat) {
    Low(p) < nodes && High(p) < nodes && Low(p) != High(p)
  }

  ghost predicate PairsOk(ps: seq<nat>, nodes: nat) {
    forall i :: 0 <= i < |ps| ==> PairOk(ps[i], nodes)
  }

  ghost predicate Reported(ps: seq<nat>, n: nat, m: nat) {
    exists i :: 0 <= i < |ps| && Joins(ps[i], n, m)
  }

  /** n's partners in the order reported, repeats included. */
  ghost function Partners(ps: seq<nat>, n: nat): seq<nat> {
    if ps == [] then []
    else
      var rest, p := Partners(ps[..|ps| - 1], n), ps[|ps| - 1];
      if Low(p) == n then rest + [High(p)] else if High(p) == n then rest + [Low(p)] else rest
  }

  lemma PartnersNext(ps: seq<nat>, k: nat, n: nat)
    requires k < |ps|
    ensures Partners(ps[..k + 1], n)
         == Partners(ps[..k], n) + (if Low(ps[k]) == n then [High(ps[k])] else if High(ps[k]) == n then [Low(ps[k])] else [])
  {
    assert ps[..k + 1][..k] == ps[..k];
  }

  lemma {:induction false} PartnersAre(ps: seq<nat>, nodes: nat, n: nat, m: nat)
    requires PairsOk(ps, nodes)
    ensures m in Partners(ps, n) <==> Reported(ps, n, m)
  {
    if ps != [] {
      var k := |ps| - 1;
      PartnersAre(ps[..k], nodes, n, m);
      assert ps == ps[..k] + [ps[k]];
      assert PairOk(ps[k], nodes);
      assert Reported(ps, n, m) <==> Reported(ps[..k], n, m) || Joins(ps[k], n, m) by {
        if Joins(ps[k], n, m) {
          assert Reported(ps, n, m);
        }
        if Reported(ps[..k], n, m) {
          var i :| 0 <= i < k && Joins(ps[..k][i], n, m);
          assert Joins(ps[i], n, m);
        }
        if Reported(ps, n, m) && !Joins(ps[k], n, m) {
          var i :| 0 <= i < |ps| && Joins(ps[i], n, m);
          assert Joins(ps[..k][i], n, m);
        }
      }
    }
  }

  lemma {:induction false} PartnersGrow(ps: seq<nat>, k: nat, n: nat)
    requires k <= |ps|
    ensures |Partners(ps[..k], n)| <= |Partners(ps, n)|
    decreases |ps| - k
  {
    if k < |ps| {
      PartnersNext(ps, k, n);
      PartnersGrow(ps, k + 1, n);
    } else {
      assert ps[..k] == ps;
    }
  }

  // ----- counting and offsets -----

  method Count(ps: seq<nat>, nodes: nat) returns (counts: seq<nat>)
    requires PairsOk(ps, nodes)
    ensures |counts| == nodes && forall n :: 0 <= n < nodes ==> counts[n] == |Partners(ps, n)|
  {
    counts := seq(nodes, _ => 0);
    for k := 0 to |ps|
      invariant |counts| == nodes && forall n :: 0 <= n < nodes ==> counts[n] == |Partners(ps[..k], n)|
    {
      assert PairOk(ps[k], nodes);
      forall n | 0 <= n < nodes
        ensures |Partners(ps[..k + 1], n)| == |Partners(ps[..k], n)| + (if Low(ps[k]) == n || High(ps[k]) == n then 1 else 0)
      {
        PartnersNext(ps, k, n);
      }
      var a, b := Low(ps[k]), High(ps[k]);
      counts := counts[a := counts[a] + 1];
      counts := counts[b := counts[b] + 1];
    }
    assert ps[..|ps|] == ps;
  }

  /** Row n is [start[n], start[n + 1]), as long as its count; rows follow each other. */
  ghost predicate Offsets(start: seq<nat>, counts: seq<nat>) {
    && |start| == |counts| + 1 && start[0] == 0
    && forall n, m :: 0 <= n && m == n + 1 && m < |start| ==> start[m] == start[n] + counts[n]
  }

  method Layout(counts: seq<nat>) returns (start: seq<nat>, total: nat)
    ensures Offsets(start, counts) && total == start[|counts|]
  {
    start, total := [], 0;
    for n := 0 to |counts|
      invariant |start| == n && (n > 0 ==> start[0] == 0 && total == start[n - 1] + counts[n - 1]) && (n == 0 ==> total == 0)
      invariant forall i, j :: 0 <= i && j == i + 1 && j < n ==> start[j] == start[i] + counts[i]
    {
      start := start + [total];
      total := total + counts[n];
    }
    start := start + [total];
  }

  lemma {:induction false} RowsInOrder(start: seq<nat>, counts: seq<nat>, n: nat, m: nat)
    requires Offsets(start, counts) && n < m < |start|
    ensures start[n] + counts[n] <= start[m]
    decreases m - n
  {
    if n + 1 < m {
      RowsInOrder(start, counts, n + 1, m);
    }
  }

  // ----- filling -----

  ghost predicate RowIs(data: seq<nat>, at: nat, row: seq<nat>) {
    at + |row| <= |data| && data[at..at + |row|] == row
  }

  /** Each row so far holds the partners reported so far. */
  ghost predicate Filled(ps: seq<nat>, k: nat, start: seq<nat>, data: seq<nat>, filled: seq<nat>) {
    && k <= |ps| && |filled| + 1 == |start|
    && forall n :: 0 <= n < |filled| ==> FilledAt(ps, k, start, data, filled, n)
  }

  ghost predicate FilledAt(ps: seq<nat>, k: nat, start: seq<nat>, data: seq<nat>, filled: seq<nat>, n: nat) {
    && k <= |ps| && n < |filled| && n < |start| && filled[n] == |Partners(ps[..k], n)|
    && RowIs(data, start[n], Partners(ps[..k], n))
  }

  lemma RowAppend(data: seq<nat>, at: nat, row: seq<nat>, v: nat)
    requires RowIs(data, at, row) && at + |row| < |data|
    ensures RowIs(data[at + |row| := v], at, row + [v])
  {
    var next := data[at + |row| := v];
    assert next[at..at + |row| + 1] == next[at..at + |row|] + [v];
    assert next[at..at + |row|] == data[at..at + |row|];
  }

  lemma RowElsewhere(data: seq<nat>, at: nat, row: seq<nat>, i: nat, v: nat)
    requires RowIs(data, at, row) && i < |data| && (i < at || i >= at + |row|)
    ensures RowIs(data[i := v], at, row)
  {
    assert data[i := v][at..at + |row|] == data[at..at + |row|];
  }

  /** Where the next entry of row n goes: inside its own row. */
  lemma CursorInRow(ps: seq<nat>, nodes: nat, k: nat, start: seq<nat>, counts: seq<nat>, n: nat)
    requires k < |ps| && n < nodes && (Low(ps[k]) == n || High(ps[k]) == n) && |counts| == nodes && Offsets(start, counts)
    requires forall x :: 0 <= x < nodes ==> counts[x] == |Partners(ps, x)|
    ensures start[n] + |Partners(ps[..k], n)| < start[n] + counts[n] <= start[nodes]
  {
    PartnersNext(ps, k, n);
    PartnersGrow(ps, k + 1, n);
    RowsInOrder(start, counts, n, nodes);
  }

  /** Appending to row n leaves every other row alone. */
  lemma RowsApart(start: seq<nat>, counts: seq<nat>, n: nat, x: nat, len: nat, i: nat)
    requires Offsets(start, counts) && n < |counts| && x < |counts| && x != n && len <= counts[x] && start[n] <= i < start[n] + counts[n]
    ensures i < start[x] || i >= start[x] + len
  {
    if x < n {
      RowsInOrder(start, counts, x, n);
    } else {
      RowsInOrder(start, counts, n, x);
    }
  }

  ghost predicate Sized(ps: seq<nat>, nodes: nat, start: seq<nat>, counts: seq<nat>, data: seq<nat>) {
    && PairsOk(ps, nodes) && |counts| == nodes && Offsets(start, counts) && |data| == start[nodes]
    && forall x :: 0 <= x < nodes ==> counts[x] == |Partners(ps, x)|
  }

  /** One pair: an entry in each of its two rows. */
  lemma FillNext(ps: seq<nat>, nodes: nat, k: nat, start: seq<nat>, counts: seq<nat>, data: seq<nat>, filled: seq<nat>,
                 data': seq<nat>, filled': seq<nat>, x: nat)
    requires Sized(ps, nodes, start, counts, data) && Filled(ps, k, start, data, filled) && k < |ps| && |filled| == nodes && x < nodes
    requires Low(ps[k]) < nodes && High(ps[k]) < nodes && Low(ps[k]) != High(ps[k])
    requires start[Low(ps[k])] + filled[Low(ps[k])] < |data| && start[High(ps[k])] + filled[High(ps[k])] < |data|
    requires data' == data[start[Low(ps[k])] + filled[Low(ps[k])] := High(ps[k])][start[High(ps[k])] + filled[High(ps[k])] := Low(ps[k])]
    requires filled' == filled[Low(ps[k]) := filled[Low(ps[k])] + 1][High(ps[k]) := filled[High(ps[k])] + 1]
    ensures FilledAt(ps, k + 1, start, data', filled', x)
  {
    hide Partners, RowIs, Offsets, PairsOk, Low, High;
    var a, b := Low(ps[k]), High(ps[k]);
    var i, j := start[a] + filled[a], start[b] + filled[b];
    assert FilledAt(ps, k, start, data, filled, a) && FilledAt(ps, k, start, data, filled, b) && FilledAt(ps, k, start, data, filled, x);
    CursorInRow(ps, nodes, k, start, counts, a);
    CursorInRow(ps, nodes, k, start, counts, b);
    PartnersNext(ps, k, x);
    FillRow(ps, nodes, k, start, counts, data, a, b, i, j, x);
  }

  lemma FillRow(ps: seq<nat>, nodes: nat, k: nat, start: seq<nat>, counts: seq<nat>, data: seq<nat>, a: nat, b: nat, i: nat, j: nat, x: nat)
    requires Sized(ps, nodes, start, counts, data) && k < |ps| && x < nodes && a < nodes && b < nodes && a != b && Low(ps[k]) == a && High(ps[k]) == b
    requires i == start[a] + |Partners(ps[..k], a)| < start[a] + counts[a] <= |data|
    requires j == start[b] + |Partners(ps[..k], b)| < start[b] + counts[b] <= |data|
    requires RowIs(data, start[x], Partners(ps[..k], x)) && RowIs(data, start[a], Partners(ps[..k], a)) && RowIs(data, start[b], Partners(ps[..k], b))
    ensures RowIs(data[i := b][j := a], start[x], Partners(ps[..k + 1], x))
  {
    hide Partners, RowIs, PairsOk, Low, High;
    PartnersNext(ps, k, x);
    var row := Partners(ps[..k], x);
    assert row + [] == row;
    PartnersGrow(ps, k, x);
    PartnersGrow(ps, k + 1, x);
    if x == a {
      RowAppend(data, start[a], row, b);
      RowsApart(start, counts, b, a, |row| + 1, j);
      RowElsewhere(data[i := b], start[a], row + [b], j, a);
    } else {
      RowsApart(start, counts, a, x, |row|, i);
      RowElsewhere(data, start[x], row, i, b);
      if x == b {
        RowAppend(data[i := b], start[b], row, a);
      } else {
        RowsApart(start, counts, b, x, |row|, j);
        RowElsewhere(data[i := b], start[x], row, j, a);
      }
    }
    assert ps[..|ps|] == ps;
  }

  method Fill(ps: seq<nat>, nodes: nat, start: seq<nat>, ghost counts: seq<nat>, total: nat) returns (data: seq<nat>, filled: seq<nat>)
    requires PairsOk(ps, nodes) && |counts| == nodes && Offsets(start, counts) && total == start[nodes]
    requires forall x :: 0 <= x < nodes ==> counts[x] == |Partners(ps, x)|
    ensures |data| == total && |filled| == nodes && Filled(ps, |ps|, start, data, filled)
  {
    hide Partners, RowIs, Offsets;
    data, filled := seq(total, _ => 0), seq(nodes, _ => 0);
    OffsetsSize(start, counts);
    StartFill(ps, start, counts, data, filled);
    for k := 0 to |ps|
      invariant |data| == total && |filled| == nodes && Filled(ps, k, start, data, filled)
    {
      assert PairOk(ps[k], nodes);
      var a, b := Low(ps[k]), High(ps[k]);
      assert FilledAt(ps, k, start, data, filled, a) && FilledAt(ps, k, start, data, filled, b);
      CursorInRow(ps, nodes, k, start, counts, a);
      CursorInRow(ps, nodes, k, start, counts, b);
      ghost var data0, filled0 := data, filled;
      data := data[start[a] + filled[a] := b];
      filled := filled[a := filled[a] + 1];
      data := data[start[b] + filled[b] := a];
      filled := filled[b := filled[b] + 1];
      ghost var k1 := k + 1;
      forall x | 0 <= x < nodes
        ensures FilledAt(ps, k1, start, data, filled, x)
      {
        FillNext(ps, nodes, k, start, counts, data0, filled0, data, filled, x);
      }
    }
  }

  lemma OffsetsSize(start: seq<nat>, counts: seq<nat>)
    requires Offsets(start, counts)
    ensures |start| == |counts| + 1 && forall n :: 0 <= n < |counts| ==> start[n] <= start[|counts|]
  {
    forall n | 0 <= n < |counts|
      ensures start[n] <= start[|counts|]
    {
      RowsInOrder(start, counts, n, |counts|);
    }
  }

  lemma StartFill(ps: seq<nat>, start: seq<nat>, counts: seq<nat>, data: seq<nat>, filled: seq<nat>)
    requires |start| == |counts| + 1 == |filled| + 1 && (forall n :: 0 <= n < |counts| ==> start[n] <= |data|) && forall n :: 0 <= n < |filled| ==> filled[n] == 0
    ensures Filled(ps, 0, start, data, filled)
  {
    assert ps[..0] == [];
  }

  // ----- sorting and removing duplicates -----

  ghost predicate Ascending(r: seq<nat>) {
    forall i, j :: 0 <= i < j < |r| ==> r[i] <= r[j]
  }

  ghost predicate StrictlyAscending(r: seq<nat>) {
    forall i, j :: 0 <= i < j < |r| ==> r[i] < r[j]
  }

  ghost predicate SameMembers(a: seq<nat>, b: seq<nat>) {
    forall x :: x in a <==> x in b
  }

  method SortRow(row: seq<nat>) returns (r: seq<nat>)
    ensures Ascending(r) && |r| == |row| && multiset(r) == multiset(row)
  {
    var less := (a: nat, b: nat) => a < b;
    r := Sort(less, row);
    assert |multiset(r)| == |multiset(row)|;
    assert forall a, b :: less(a, b) <==> a < b;
  }

  /** Keeps the first of each run of equal entries, in place. */
  method Dedup(row: seq<nat>) returns (r: seq<nat>, kept: nat)
    requires Ascending(row)
    ensures |r| == |row| && kept <= |r| && StrictlyAscending(r[..kept]) && SameMembers(r[..kept], row)
  {
    r, kept := row, 0;
    for i := 0 to |row|
      invariant |r| == |row| && kept <= i && forall k :: i <= k < |row| ==> r[k] == row[k]
      invariant StrictlyAscending(r[..kept]) && SameMembers(r[..kept], row[..i])
      invariant i > 0 ==> kept > 0 && r[kept - 1] == row[i - 1]
    {
      assert row[..i + 1] == row[..i] + [row[i]];
      ghost var before := r[..kept];
      if i == 0 || r[i] != r[kept - 1] {
        assert forall x :: x in before ==> x < row[i] by {
          BelowNext(row, i, before, kept, r);
        }
        r := r[kept := r[i]];
        kept := kept + 1;
        assert r[..kept] == before + [row[i]];
      } else {
        assert row[i] == before[kept - 1];
      }
    }
    assert row[..|row|] == row;
  }

  lemma BelowNext(row: seq<nat>, i: nat, before: seq<nat>, kept: nat, r: seq<nat>)
    requires Ascending(row) && i < |row| && |before| == kept <= |r| && before == r[..kept] && StrictlyAscending(before)
    requires i > 0 ==> kept > 0 && before[kept - 1] == row[i - 1] && row[i] != row[i - 1]
    requires i == 0 ==> kept == 0
    ensures forall x :: x in before ==> x < row[i]
  {
    forall x | x in before
      ensures x < row[i]
    {
      var j :| 0 <= j < |before| && before[j] == x;
      assert x <= before[kept - 1];
    }
  }

  // ----- sealing -----

  /** Row n of the sealed graph: exactly its partners, ascending, each once. */
  ghost predicate RowExact(ps: seq<nat>, n: nat, row: seq<nat>) {
    StrictlyAscending(row) && forall m :: m in row <==> Reported(ps, n, m)
  }

  /** Row n is finished: its first deg[n] entries are exact. */
  ghost predicate DoneAt(ps: seq<nat>, start: seq<nat>, counts: seq<nat>, data: seq<nat>, d: nat, n: nat) {
    && n < |start| && n < |counts| && d <= counts[n] && start[n] + d <= |data|
    && RowExact(ps, n, data[start[n]..start[n] + d])
  }

  /** data is was with the bytes from `from` on replaced by clean. */
  ghost predicate Spliced(was: seq<nat>, data: seq<nat>, from: nat, clean: seq<nat>) {
    from + |clean| <= |was| && data == was[..from] + clean + was[from + |clean|..]
  }

  lemma SliceKept(was: seq<nat>, data: seq<nat>, from: nat, clean: seq<nat>, at: nat, len: nat)
    requires Spliced(was, data, from, clean)
    requires at + len <= from || (from + |clean| <= at && at + len <= |was|)
    ensures at + len <= |data| == |was| && data[at..at + len] == was[at..at + len]
  {
  }

  lemma SliceNew(was: seq<nat>, data: seq<nat>, from: nat, clean: seq<nat>, kept: nat)
    requires Spliced(was, data, from, clean) && kept <= |clean|
    ensures |data| == |was| && data[from..from + kept] == clean[..kept]
  {
  }

  lemma RowSealed(ps: seq<nat>, nodes: nat, n: nat, row: seq<nat>, sorted: seq<nat>, clean: seq<nat>)
    requires PairsOk(ps, nodes) && row == Partners(ps, n) && multiset(sorted) == multiset(row)
    requires StrictlyAscending(clean) && SameMembers(clean, sorted)
    ensures RowExact(ps, n, clean)
  {
    hide Partners, Reported;
    forall m
      ensures m in clean <==> Reported(ps, n, m)
    {
      PartnersAre(ps, nodes, n, m);
      assert m in sorted <==> m in multiset(sorted);
      assert m in row <==> m in multiset(row);
    }
  }

  /** Row n in its sorted, duplicate-free form. */
  method CleanRow(ghost ps: seq<nat>, ghost nodes: nat, n: nat, row: seq<nat>) returns (clean: seq<nat>, kept: nat)
    requires PairsOk(ps, nodes) && row == Partners(ps, n)
    ensures |clean| == |row| && kept <= |clean| && RowExact(ps, n, clean[..kept])
  {
    hide Partners, RowExact, PairsOk;
    var sorted := SortRow(row);
    clean, kept := Dedup(sorted);
    RowSealed(ps, nodes, n, row, sorted, clean[..kept]);
  }

  method FinishRows(ghost ps: seq<nat>, nodes: nat, start: seq<nat>, ghost counts: seq<nat>, data0: seq<nat>, filled: seq<nat>)
    returns (data: seq<nat>, deg: seq<nat>)
    requires Sized(ps, nodes, start, counts, data0) && |filled| == nodes && Filled(ps, |ps|, start, data0, filled)
    ensures |deg| == nodes && forall n :: 0 <= n < nodes ==> DoneAt(ps, start, counts, data, deg[n], n)
  {
    hide Partners, RowExact, Offsets, RowIs, PairsOk, DoneAt, Spliced, Filled, Sized;
    data, deg := data0, [];
    SizedStart(ps, nodes, start, counts, data0);
    AllFilled(ps, nodes, start, counts, data0, filled);
    for n := 0 to nodes
      invariant |deg| == n && |data| == |data0| && |start| == nodes + 1
      invariant forall x :: n <= x < nodes ==> RowIs(data, start[x], Partners(ps, x))
      invariant forall x :: 0 <= x < n ==> DoneAt(ps, start, counts, data, deg[x], x)
    {
      var from, len := start[n], filled[n];
      RowHolds(data, from, len, Partners(ps, n));
      var clean, kept := CleanRow(ps, nodes, n, data[from..from + len]);
      ghost var was := data;
      data := data[..from] + clean + data[from + len..];
      IsSpliced(was, data, from, clean);
      RowDone(ps, start, counts, was, data, clean, kept, n);
      forall x | 0 <= x < nodes && x != n
        ensures x > n ==> RowIs(data, start[x], Partners(ps, x))
        ensures x < n ==> DoneAt(ps, start, counts, data, deg[x], x)
      {
        if x > n {
          LaterRow(ps, nodes, start, counts, was, data, clean, n, x);
        } else {
          EarlierRow(ps, start, counts, was, data, clean, deg[x], n, x);
        }
      }
      deg := deg + [kept];
    }
  }

  lemma RowHolds(data: seq<nat>, at: nat, len: nat, row: seq<nat>)
    requires RowIs(data, at, row) && len == |row|
    ensures at + len <= |data| && data[at..at + len] == row
  {
  }

  lemma IsSpliced(was: seq<nat>, data: seq<nat>, from: nat, clean: seq<nat>)
    requires from + |clean| <= |was| && data == was[..from] + clean + was[from + |clean|..]
    ensures Spliced(was, data, from, clean) && |data| == |was|
  {
  }

  lemma RowDone(ps: seq<nat>, start: seq<nat>, counts: seq<nat>, was: seq<nat>, data: seq<nat>, clean: seq<nat>, kept: nat, n: nat)
    requires n < |start| && n < |counts| && Spliced(was, data, start[n], clean) && kept <= |clean| == counts[n] && RowExact(ps, n, clean[..kept])
    ensures DoneAt(ps, start, counts, data, kept, n)
  {
    hide RowExact;
    SliceNew(was, data, start[n], clean, kept);
  }

  lemma LaterRow(ps: seq<nat>, nodes: nat, start: seq<nat>, counts: seq<nat>, was: seq<nat>, data: seq<nat>, clean: seq<nat>, n: nat, x: nat)
    requires Offsets(start, counts) && n < x < |counts| && Spliced(was, data, start[n], clean) && |clean| == counts[n]
    requires RowIs(was, start[x], Partners(ps, x))
    ensures RowIs(data, start[x], Partners(ps, x))
  {
    hide Partners;
    OtherRow(start, counts, n, x);
    SliceKept(was, data, start[n], clean, start[x], |Partners(ps, x)|);
  }

  lemma EarlierRow(ps: seq<nat>, start: seq<nat>, counts: seq<nat>, was: seq<nat>, data: seq<nat>, clean: seq<nat>, d: nat, n: nat, x: nat)
    requires Offsets(start, counts) && x < n < |counts| && Spliced(was, data, start[n], clean) && |clean| == counts[n]
    requires DoneAt(ps, start, counts, was, d, x)
    ensures DoneAt(ps, start, counts, data, d, x)
  {
    hide RowExact;
    OtherRow(start, counts, n, x);
    SliceKept(was, data, start[n], clean, start[x], d);
  }

  lemma SizedStart(ps: seq<nat>, nodes: nat, start: seq<nat>, counts: seq<nat>, data: seq<nat>)
    requires Sized(ps, nodes, start, counts, data)
    ensures |start| == nodes + 1 && |counts| == nodes && Offsets(start, counts) && PairsOk(ps, nodes)
    ensures forall x :: 0 <= x < nodes ==> counts[x] == |Partners(ps, x)|
  {
  }

  lemma AllFilled(ps: seq<nat>, nodes: nat, start: seq<nat>, counts: seq<nat>, data: seq<nat>, filled: seq<nat>)
    requires Sized(ps, nodes, start, counts, data) && |filled| == nodes && Filled(ps, |ps|, start, data, filled)
    ensures |start| == nodes + 1 && forall x :: 0 <= x < nodes ==> RowIs(data, start[x], Partners(ps, x)) && filled[x] == counts[x]
  {
    assert ps[..|ps|] == ps;
    forall x | 0 <= x < nodes
      ensures RowIs(data, start[x], Partners(ps, x)) && filled[x] == counts[x]
    {
      assert FilledAt(ps, |ps|, start, data, filled, x);
    }
  }

  /** Rows do not overlap. */
  lemma OtherRow(start: seq<nat>, counts: seq<nat>, n: nat, x: nat)
    requires Offsets(start, counts) && n < |counts| && x < |counts| && x != n
    ensures |start| == |counts| + 1 && start[x] + counts[x] <= start[|counts|]
    ensures if x < n then start[x] + counts[x] <= start[n] else start[n] + counts[n] <= start[x]
  {
    RowsInOrder(start, counts, x, |counts|);
    if x < n {
      RowsInOrder(start, counts, x, n);
    } else {
      RowsInOrder(start, counts, n, x);
    }
  }

  lemma ReportedNext(ps: seq<nat>, p: nat, n: nat, m: nat)
    ensures Reported(ps + [p], n, m) <==> Reported(ps, n, m) || Joins(p, n, m)
  {
    var all := ps + [p];
    if Joins(p, n, m) {
      assert Joins(all[|ps|], n, m);
    }
    if Reported(ps, n, m) {
      var i :| 0 <= i < |ps| && Joins(ps[i], n, m);
      assert Joins(all[i], n, m);
    }
  }

  class InterferenceGraph {
    const nodes: nat
    var pairs: seq<nat>
    var start: seq<nat>
    var deg: seq<nat>
    var data: seq<nat>

    /** The pairs reported before sealing. */
    ghost var reported: seq<nat>

    ghost predicate Building() reads this {
      nodes <= Half && pairs == reported && PairsOk(pairs, nodes)
    }

    ghost predicate RowOk(n: nat) reads this {
      && n < |start| && n < |deg| && start[n] + deg[n] <= |data|
      && RowExact(reported, n, data[start[n]..start[n] + deg[n]])
    }

    ghost predicate Sealed() reads this {
      PairsOk(reported, nodes) && |deg| == nodes && forall n :: 0 <= n < nodes ==> RowOk(n)
    }

    constructor (nodes: nat)
      requires nodes <= Half
      ensures this.nodes == nodes && Building() && reported == []
    {
      this.nodes := nodes;
      pairs, start, deg, data, reported := [], [], [], [], [];
    }

    method AddPair(a: nat, b: nat)
      requires Building() && a < nodes && b < nodes && a != b
      modifies this
      ensures Building() && reported == old(reported) + [Pack(a, b)]
      ensures forall n: nat, m: nat :: Reported(reported, n, m) <==> Reported(old(reported), n, m) || (n, m) == (a, b) || (n, m) == (b, a)
    {
      Unpack(a, b);
      ghost var before := reported;
      pairs := pairs + [Pack(a, b)];
      reported := pairs;
      assert PairOk(Pack(a, b), nodes);
      forall n: nat, m: nat
        ensures Reported(reported, n, m) <==> Reported(before, n, m) || Joins(Pack(a, b), n, m)
      {
        ReportedNext(before, Pack(a, b), n, m);
      }
    }

    /** Turns the reported pairs into rows. */
    method Seal()
      requires Building()
      modifies this
      ensures Sealed() && pairs == [] && reported == old(reported)
    {
      hide Partners, RowIs, Offsets, RowExact, Reported, Filled;
      var counts := Count(pairs, nodes);
      var total, filled;
      start, total := Layout(counts);
      data, filled := Fill(pairs, nodes, start, counts, total);
      OffsetsSize(start, counts);
      data, deg := FinishRows(pairs, nodes, start, counts, data, filled);
      forall n | 0 <= n < nodes
        ensures RowOk(n)
      {
        assert DoneAt(reported, start, counts, data, deg[n], n);
      }
      pairs := [];
    }

    /** A node's neighbours, ascending. */
    method Row(node: nat) returns (row: seq<nat>)
      requires Sealed() && node < nodes
      ensures RowExact(reported, node, row)
    {
      assert RowOk(node);
      row := data[start[node]..start[node] + deg[node]];
    }
  }
}
