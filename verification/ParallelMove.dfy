/** Sequencing simultaneous moves (amd64/xselect.go): unblocked moves first, register
    cycles broken through one scratch register per bank. */
module ParallelMove {
  import opened Graphs

  datatype Place = Reg(r: nat) | Mem(base: nat, off: int) | Const(code: nat)

  /** An operand: where it is, eight bytes or four, and its bank. */
  datatype Opd = Opd(place: Place, wide: bool, float: bool)

  datatype Pair = Pair(dst: Opd, src: Opd)

  /** A machine word as its two halves. */
  datatype Word = Word(lo: nat, hi: nat)

  /** The words every place holds at the start, and what a move leaves in the parts it
      does not define. */
  datatype Env = Env(store: Place -> Word, junk: (nat, Place) -> Word)

  datatype Scratch = Scratch(gp: nat, fp: nat)

  predicate IsScratch(s: Scratch, p: Place) {
    p == Reg(s.gp) || p == Reg(s.fp)
  }

  function Width(m: Pair): bool {
    if m.dst.float then m.src.wide else m.dst.wide
  }

  predicate Direct(m: Pair) {
    m.dst.place.Reg? && m.src.place.Reg?
  }

  /** The k-th move: a narrow one defines only the low half, and a move that is not
      between registers may go through the scratch registers. */
  function Step(s: Scratch, k: nat, m: Pair, cur: Place -> Word, e: Env): Place -> Word {
    (p: Place) =>
      if p == m.dst.place then
        if Width(m) then cur(m.src.place) else Word(cur(m.src.place).lo, e.junk(k, p).hi)
      else if !Direct(m) && IsScratch(s, p) then e.junk(k, p)
      else cur(p)
  }

  function Exec(s: Scratch, moves: seq<Pair>, e: Env): Place -> Word {
    if moves == [] then e.store
    else Step(s, |moves| - 1, moves[|moves| - 1], Exec(s, moves[..|moves| - 1], e), e)
  }

  lemma ExecAppend(s: Scratch, moves: seq<Pair>, m: Pair, e: Env)
    ensures Exec(s, moves + [m], e) == Step(s, |moves|, m, Exec(s, moves, e), e)
  {
    assert (moves + [m])[..|moves|] == moves;
  }

  /** What one emitted move does: its destination gets the source's low half, and the high
      one if it is wide; a move that is not between registers leaves anything in the
      scratch registers; nothing else changes. */
  lemma MoveIs(s: Scratch, moves: seq<Pair>, m: Pair, e: Env, p: Place)
    requires m.dst.wide == m.src.wide
    ensures Exec(s, [], e) == e.store
    ensures var cur := Exec(s, moves, e); var next := Exec(s, moves + [m], e);
            if p == m.dst.place then
              next(p).lo == cur(m.src.place).lo &&
              next(p).hi == if m.dst.wide then cur(m.src.place).hi else e.junk(|moves|, p).hi
            else if (p == Reg(s.gp) || p == Reg(s.fp)) && !(m.dst.place.Reg? && m.src.place.Reg?) then next(p) == e.junk(|moves|, p)
            else next(p) == cur(p)
  {
    ExecAppend(s, moves, m, e);
  }

  // ----- what is asked -----

  predicate Same(m: Pair) {
    !m.dst.place.Const? && m.dst.place == m.src.place
  }

  /** Reading src touches dst. */
  predicate Reads(src: Opd, dst: Opd) {
    !src.place.Const? && src.place == dst.place
  }

  /** One move the primitive can make: the operands have one width and bank, and a float
      is not moved from memory to memory. */
  ghost predicate MoveOk(s: Scratch, m: Pair) {
    && !m.dst.place.Const? && m.dst.wide == m.src.wide && m.dst.float == m.src.float
    && !IsScratch(s, m.dst.place) && !IsScratch(s, m.src.place)
    && !(m.dst.float && m.dst.place.Mem? && m.src.place.Mem?)
  }

  /** Destinations are distinct, and memory destinations are not read by other moves. */
  ghost predicate PairsOk(s: Scratch, pairs: seq<Pair>) {
    && (forall i :: 0 <= i < |pairs| ==> MoveOk(s, pairs[i]))
    && (forall i, j :: 0 <= i < |pairs| && 0 <= j < |pairs| && i != j ==> Independent(pairs[i], pairs[j]))
  }

  ghost predicate Independent(a: Pair, b: Pair) {
    a.dst.place != b.dst.place && (a.dst.place.Mem? ==> b.src.place != a.dst.place)
  }

  ghost predicate Delivered(m: Pair, w: Word, e: Env) {
    w.lo == e.store(m.src.place).lo && (m.dst.wide ==> w.hi == e.store(m.src.place).hi)
  }

  // ----- cycles -----

  /** Move v reads what move u overwrites. */
  ghost predicate After(pairs: seq<Pair>, u: nat, v: nat) {
    u < |pairs| && v < |pairs| && u != v && Reads(pairs[v].src, pairs[u].dst)
  }

  /** Moves each reading the destination before it, round to the first, which comes
      first in the list. */
  ghost predicate Cycle(pairs: seq<Pair>, c: seq<nat>) {
    && |c| >= 2 && Distinct(c)
    && (forall i, j :: 0 <= i && j == i + 1 && j < |c| ==> After(pairs, c[i], c[j]))
    && After(pairs, c[|c| - 1], c[0])
    && (forall i :: 0 <= i < |c| ==> c[0] <= c[i])
  }

  /** A cycle whose first destination is narrow while the move that reads it is wide:
      saving the destination at its own width loses half of what the reader needs. */
  ghost predicate Narrowing(pairs: seq<Pair>, c: seq<nat>) {
    Cycle(pairs, c) && c[0] < |pairs| && c[1] < |pairs| && !pairs[c[0]].dst.wide && pairs[c[1]].dst.wide
  }

  ghost predicate WidthsOk(pairs: seq<Pair>) {
    forall c :: !Narrowing(pairs, c)
  }

  // ----- the worklist -----

  /** The k-th pending move is pairs[ids[k]], in the original order; its source is the
      original or has been saved in a scratch register. */
  ghost predicate Pending(s: Scratch, pairs: seq<Pair>, work: seq<Pair>, ids: seq<nat>, bad: set<nat>) {
    && |work| == |ids| && (forall k :: 0 <= k < |ids| ==> PendingAt(s, pairs, work, ids, bad, k))
    && (forall k, l :: 0 <= k < l < |ids| ==> ids[k] < ids[l])
  }

  ghost predicate PendingAt(s: Scratch, pairs: seq<Pair>, work: seq<Pair>, ids: seq<nat>, bad: set<nat>, k: nat)
    requires k < |work| && k < |ids|
  {
    && ids[k] < |pairs| && work[k].dst == pairs[ids[k]].dst && !Same(pairs[ids[k]])
    && ((work[k].src == pairs[ids[k]].src && ids[k] !in bad)
        || (IsScratch(s, work[k].src.place) && (work[k].dst.wide && !work[k].src.wide ==> ids[k] in bad)))
  }

  /** Done and pending together are the moves that do something. */
  ghost predicate Split(pairs: seq<Pair>, ids: seq<nat>, done: set<nat>) {
    && (forall i :: i in done ==> i < |pairs| && i !in ids && !Same(pairs[i]))
    && (forall i: nat :: i < |pairs| && !Same(pairs[i]) ==> i in done || i in ids)
  }

  /** No pending move still reads, in place, what a finished one has overwritten. */
  ghost predicate Unread(s: Scratch, pairs: seq<Pair>, work: seq<Pair>, done: set<nat>) {
    forall k, i :: 0 <= k < |work| && i in done && i < |pairs| ==> work[k].src.place != pairs[i].dst.place
  }

  /** Once something waits in a scratch register, only register moves are left. */
  ghost predicate ScratchSafe(s: Scratch, work: seq<Pair>) {
    (exists k :: 0 <= k < |work| && IsScratch(s, work[k].src.place)) ==> forall k :: 0 <= k < |work| ==> Direct(work[k])
  }

  ghost predicate IsJunk(e: Env, h: nat) {
    exists k, p :: e.junk(k, p).hi == h
  }

  /** w is what pair m should deliver, except that a bad one's high half is junk. */
  ghost predicate Holds(m: Pair, bad: bool, w: Word, e: Env) {
    && w.lo == e.store(m.src.place).lo
    && (m.dst.wide ==> if bad then IsJunk(e, w.hi) else w.hi == e.store(m.src.place).hi)
  }

  ghost predicate Untouched(s: Scratch, pairs: seq<Pair>, done: set<nat>, p: Place) {
    !IsScratch(s, p) && forall i :: i in done && i < |pairs| ==> pairs[i].dst.place != p
  }

  /** The words after the moves emitted so far. */
  ghost predicate GoodAt(s: Scratch, pairs: seq<Pair>, work: seq<Pair>, ids: seq<nat>, done: set<nat>, bad: set<nat>, cur: Place -> Word, e: Env)
    requires |ids| == |work| && forall k :: 0 <= k < |ids| ==> ids[k] < |pairs|
  {
    && (forall p: Place :: Untouched(s, pairs, done, p) ==> cur(p) == e.store(p))
    && (forall i :: i in done && i < |pairs| ==> Holds(pairs[i], i in bad, cur(pairs[i].dst.place), e))
    && (forall k :: 0 <= k < |work| && IsScratch(s, work[k].src.place) ==> Holds(pairs[ids[k]], ids[k] in bad, cur(work[k].src.place), e))
  }

  ghost predicate Good(s: Scratch, pairs: seq<Pair>, work: seq<Pair>, ids: seq<nat>, done: set<nat>, bad: set<nat>, moves: seq<Pair>) {
    && |ids| == |work| && (forall k :: 0 <= k < |ids| ==> ids[k] < |pairs|)
    && forall e: Env :: GoodAt(s, pairs, work, ids, done, bad, Exec(s, moves, e), e)
  }

  /** The cycle has not been broken: all its moves are pending with their own sources. */
  ghost predicate Intact(pairs: seq<Pair>, work: seq<Pair>, ids: seq<nat>, c: seq<nat>) {
    forall i :: 0 <= i < |c| ==> IntactAt(pairs, work, ids, c[i])
  }

  ghost predicate IntactAt(pairs: seq<Pair>, work: seq<Pair>, ids: seq<nat>, x: nat) {
    exists k :: 0 <= k < |ids| && k < |work| && ids[k] == x && x < |pairs| && work[k] == pairs[x]
  }

  /** The bad moves are exactly those read through a narrowing, as cycles are broken. */
  ghost predicate Tracked(pairs: seq<Pair>, work: seq<Pair>, ids: seq<nat>, bad: set<nat>) {
    && (forall i :: i in bad ==> exists c :: Narrowing(pairs, c) && c[1] == i)
    && (forall c :: Narrowing(pairs, c) ==> Intact(pairs, work, ids, c) || c[1] in bad)
  }

  ghost predicate Inv(s: Scratch, pairs: seq<Pair>, work: seq<Pair>, ids: seq<nat>, done: set<nat>, bad: set<nat>, moves: seq<Pair>) {
    && PairsOk(s, pairs) && Pending(s, pairs, work, ids, bad) && Split(pairs, ids, done) && Unread(s, pairs, work, done)
    && ScratchSafe(s, work) && Good(s, pairs, work, ids, done, bad, moves) && Tracked(pairs, work, ids, bad)
  }

  // ----- emitting an unblocked move -----

  ghost predicate Unblocked(work: seq<Pair>, k: nat) {
    k < |work| && forall j :: 0 <= j < |work| && j != k ==> !Reads(work[j].src, work[k].dst)
  }

  function Drop<T>(s: seq<T>, k: nat): (r: seq<T>)
    requires k < |s|
    ensures |r| == |s| - 1 && forall j :: 0 <= j < |r| ==> r[j] == if j < k then s[j] else s[j + 1]
  {
    s[..k] + s[k + 1..]
  }

  /** Where an entry of a shortened list was. */
  function Back(j: nat, k: nat): nat {
    if j < k then j else j + 1
  }

  lemma EmitPending(s: Scratch, pairs: seq<Pair>, work: seq<Pair>, ids: seq<nat>, bad: set<nat>, k: nat)
    requires Pending(s, pairs, work, ids, bad) && k < |work|
    ensures Pending(s, pairs, Drop(work, k), Drop(ids, k), bad)
  {
    var w, d := Drop(work, k), Drop(ids, k);
    forall j | 0 <= j < |d|
      ensures PendingAt(s, pairs, w, d, bad, j)
    {
      assert PendingAt(s, pairs, work, ids, bad, Back(j, k));
    }
  }

  lemma EmitSplit(s: Scratch, pairs: seq<Pair>, work: seq<Pair>, ids: seq<nat>, done: set<nat>, bad: set<nat>, k: nat)
    requires Pending(s, pairs, work, ids, bad) && Split(pairs, ids, done) && k < |ids|
    ensures Split(pairs, Drop(ids, k), done + {ids[k]})
  {
    var d := Drop(ids, k);
    assert PendingAt(s, pairs, work, ids, bad, k);
    forall i | i in d
      ensures i in ids && i != ids[k]
    {
      var j :| 0 <= j < |d| && d[j] == i;
      assert ids[Back(j, k)] == i;
    }
    forall i | i in ids && i != ids[k]
      ensures i in d
    {
      var j :| 0 <= j < |ids| && ids[j] == i;
      assert d[if j < k then j else j - 1] == i;
    }
  }

  lemma EmitUnread(s: Scratch, pairs: seq<Pair>, work: seq<Pair>, ids: seq<nat>, done: set<nat>, bad: set<nat>, k: nat)
    requires PairsOk(s, pairs) && Pending(s, pairs, work, ids, bad) && Unread(s, pairs, work, done) && Unblocked(work, k)
    ensures Unread(s, pairs, Drop(work, k), done + {ids[k]}) && k < |ids|
  {
    var w := Drop(work, k);
    assert PendingAt(s, pairs, work, ids, bad, k);
    assert MoveOk(s, pairs[ids[k]]);
    forall j, i | 0 <= j < |w| && i in done + {ids[k]} && i < |pairs|
      ensures w[j].src.place != pairs[i].dst.place
    {
      assert w[j] == work[Back(j, k)];
      if i == ids[k] {
        assert !Reads(work[Back(j, k)].src, work[k].dst);
      }
    }
  }

  lemma EmitScratchSafe(s: Scratch, work: seq<Pair>, k: nat)
    requires ScratchSafe(s, work) && k < |work|
    ensures ScratchSafe(s, Drop(work, k))
  {
    var w := Drop(work, k);
    assert forall j :: 0 <= j < |w| ==> w[j] == work[Back(j, k)];
  }

  /** A blocked move stays, so an unbroken cycle stays unbroken. */
  lemma EmitIntact(s: Scratch, pairs: seq<Pair>, work: seq<Pair>, ids: seq<nat>, bad: set<nat>, k: nat, c: seq<nat>)
    requires Pending(s, pairs, work, ids, bad) && Unblocked(work, k) && Cycle(pairs, c) && Intact(pairs, work, ids, c)
    ensures Intact(pairs, Drop(work, k), Drop(ids, k), c)
  {
    var w, d := Drop(work, k), Drop(ids, k);
    forall i | 0 <= i < |c|
      ensures IntactAt(pairs, w, d, c[i])
    {
      assert IntactAt(pairs, work, ids, c[i]);
      var a :| 0 <= a < |ids| && a < |work| && ids[a] == c[i] && work[a] == pairs[c[i]];
      var n := if i + 1 < |c| then i + 1 else 0;
      assert IntactAt(pairs, work, ids, c[n]);
      var b :| 0 <= b < |ids| && b < |work| && ids[b] == c[n] && work[b] == pairs[c[n]];
      assert After(pairs, c[i], c[n]);
      assert Reads(work[b].src, work[a].dst) && a != b;
      assert a != k;
      assert d[if a < k then a else a - 1] == c[i];
    }
  }

  lemma EmitTracked(s: Scratch, pairs: seq<Pair>, work: seq<Pair>, ids: seq<nat>, bad: set<nat>, k: nat)
    requires Pending(s, pairs, work, ids, bad) && Unblocked(work, k) && Tracked(pairs, work, ids, bad)
    ensures Tracked(pairs, Drop(work, k), Drop(ids, k), bad)
  {
    hide Intact, Pending, Unblocked;
    PendingSizes(s, pairs, work, ids, bad);
    UnblockedRange(work, k);
    forall c | Narrowing(pairs, c)
      ensures Intact(pairs, Drop(work, k), Drop(ids, k), c) || c[1] in bad
    {
      if c[1] !in bad {
        EmitIntact(s, pairs, work, ids, bad, k, c);
      }
    }
  }

  lemma PendingSizes(s: Scratch, pairs: seq<Pair>, work: seq<Pair>, ids: seq<nat>, bad: set<nat>)
    requires Pending(s, pairs, work, ids, bad)
    ensures |work| == |ids| && forall k :: 0 <= k < |ids| ==> ids[k] < |pairs|
  {
    forall k | 0 <= k < |ids|
      ensures ids[k] < |pairs|
    {
      assert PendingAt(s, pairs, work, ids, bad, k);
    }
  }

  lemma UnblockedRange(work: seq<Pair>, k: nat)
    requires Unblocked(work, k)
    ensures k < |work|
  {
  }

  /** The value the emitted move delivers. */
  lemma EmitHolds(s: Scratch, pairs: seq<Pair>, work: seq<Pair>, ids: seq<nat>, done: set<nat>, bad: set<nat>, cur: Place -> Word, e: Env, k: nat, n: nat)
    requires PairsOk(s, pairs) && Pending(s, pairs, work, ids, bad) && Split(pairs, ids, done) && Unread(s, pairs, work, done) && k < |work|
    requires |ids| == |work| && (forall j :: 0 <= j < |ids| ==> ids[j] < |pairs|) && GoodAt(s, pairs, work, ids, done, bad, cur, e)
    ensures Holds(pairs[ids[k]], ids[k] in bad, Step(s, n, work[k], cur, e)(work[k].dst.place), e)
  {
    assert PendingAt(s, pairs, work, ids, bad, k);
    assert MoveOk(s, pairs[ids[k]]);
    var src := work[k].src.place;
    if !IsScratch(s, src) {
      assert Untouched(s, pairs, done, src);
      assert cur(src) == e.store(src);
      assert work[k] == pairs[ids[k]];
      assert work[k].dst.wide ==> Width(work[k]);
    } else {
      assert IsJunk(e, e.junk(n, work[k].dst.place).hi);
    }
  }

  /** An emitted move leaves alone every place but its destination, unless it is staged
      through the scratch registers. */
  lemma EmitGoodAt(s: Scratch, pairs: seq<Pair>, work: seq<Pair>, ids: seq<nat>, done: set<nat>, bad: set<nat>, cur: Place -> Word, e: Env, k: nat, n: nat)
    requires PairsOk(s, pairs) && Pending(s, pairs, work, ids, bad) && Split(pairs, ids, done) && Unread(s, pairs, work, done)
    requires ScratchSafe(s, work) && k < |work|
    requires |ids| == |work| && (forall j :: 0 <= j < |ids| ==> ids[j] < |pairs|) && GoodAt(s, pairs, work, ids, done, bad, cur, e)
    ensures GoodAt(s, pairs, Drop(work, k), Drop(ids, k), done + {ids[k]}, bad, Step(s, n, work[k], cur, e), e)
  {
    hide Pending, Split, Unread, Holds;
    var next, w, d, done' := Step(s, n, work[k], cur, e), Drop(work, k), Drop(ids, k), done + {ids[k]};
    EmitHolds(s, pairs, work, ids, done, bad, cur, e, k, n);
    PendingDst(s, pairs, work, ids, done, bad, k);
    forall p: Place | Untouched(s, pairs, done', p)
      ensures next(p) == e.store(p)
    {
      assert ids[k] in done';
      assert Untouched(s, pairs, done, p);
    }
    forall i | i in done' && i < |pairs|
      ensures Holds(pairs[i], i in bad, next(pairs[i].dst.place), e)
    {
      if i != ids[k] {
        assert Independent(pairs[i], pairs[ids[k]]) && MoveOk(s, pairs[i]);
      }
    }
    forall j | 0 <= j < |w| && IsScratch(s, w[j].src.place)
      ensures Holds(pairs[d[j]], d[j] in bad, next(w[j].src.place), e)
    {
      assert w[j] == work[Back(j, k)] && d[j] == ids[Back(j, k)];
      assert Direct(work[k]);
    }
  }

  lemma PendingDst(s: Scratch, pairs: seq<Pair>, work: seq<Pair>, ids: seq<nat>, done: set<nat>, bad: set<nat>, k: nat)
    requires PairsOk(s, pairs) && Pending(s, pairs, work, ids, bad) && Split(pairs, ids, done) && k < |work|
    ensures k < |ids| && ids[k] < |pairs| && ids[k] !in done && work[k].dst == pairs[ids[k]].dst && !IsScratch(s, work[k].dst.place)
  {
    assert PendingAt(s, pairs, work, ids, bad, k);
    assert ids[k] in ids;
    assert MoveOk(s, pairs[ids[k]]);
  }

  lemma EmitGood(s: Scratch, pairs: seq<Pair>, work: seq<Pair>, ids: seq<nat>, done: set<nat>, bad: set<nat>, moves: seq<Pair>, k: nat)
    requires PairsOk(s, pairs) && Pending(s, pairs, work, ids, bad) && Split(pairs, ids, done) && Unread(s, pairs, work, done)
    requires ScratchSafe(s, work) && k < |work| && Good(s, pairs, work, ids, done, bad, moves)
    ensures Good(s, pairs, Drop(work, k), Drop(ids, k), done + {ids[k]}, bad, moves + [work[k]])
  {
    hide PairsOk, Pending, Split, Unread, ScratchSafe, GoodAt, Step, Exec;
    assert forall j :: 0 <= j < |Drop(ids, k)| ==> Drop(ids, k)[j] == ids[Back(j, k)];
    forall e: Env
      ensures GoodAt(s, pairs, Drop(work, k), Drop(ids, k), done + {ids[k]}, bad, Exec(s, moves + [work[k]], e), e)
    {
      assert GoodAt(s, pairs, work, ids, done, bad, Exec(s, moves, e), e);
      EmitGoodAt(s, pairs, work, ids, done, bad, Exec(s, moves, e), e, k, |moves|);
      ExecAppend(s, moves, work[k], e);
    }
  }

  lemma EmitInv(s: Scratch, pairs: seq<Pair>, work: seq<Pair>, ids: seq<nat>, done: set<nat>, bad: set<nat>, moves: seq<Pair>, k: nat)
    requires Inv(s, pairs, work, ids, done, bad, moves) && Unblocked(work, k)
    ensures k < |work| == |ids|
    ensures Inv(s, pairs, Drop(work, k), Drop(ids, k), done + {ids[k]}, bad, moves + [work[k]])
  {
    hide PairsOk, Pending, Split, Unread, ScratchSafe, Good, Tracked, Unblocked;
    PendingSizes(s, pairs, work, ids, bad);
    UnblockedRange(work, k);
    EmitPending(s, pairs, work, ids, bad, k);
    EmitSplit(s, pairs, work, ids, done, bad, k);
    EmitUnread(s, pairs, work, ids, done, bad, k);
    EmitScratchSafe(s, work, k);
    EmitTracked(s, pairs, work, ids, bad, k);
    EmitGood(s, pairs, work, ids, done, bad, moves, k);
  }

  // ----- a stuck worklist -----

  /** Every destination is still read by another pending move. */
  ghost predicate Stuck(work: seq<Pair>) {
    forall k :: 0 <= k < |work| ==> BlockedAt(work, k)
  }

  ghost predicate BlockedAt(work: seq<Pair>, k: nat) {
    k < |work| && exists j :: 0 <= j < |work| && j != k && Reads(work[j].src, work[k].dst)
  }

  /** v reads what u overwrites, among the pending moves. */
  ghost predicate Next(work: seq<Pair>, u: nat, v: nat) {
    u < |work| && v < |work| && u != v && Reads(work[v].src, work[u].dst)
  }

  ghost predicate DistinctDsts(work: seq<Pair>) {
    forall i, j :: 0 <= i < |work| && 0 <= j < |work| && i != j ==> work[i].dst.place != work[j].dst.place
  }

  ghost function Reader(work: seq<Pair>, k: nat): (j: nat)
    requires BlockedAt(work, k)
    ensures Next(work, k, j)
  {
    var j: nat :| j < |work| && j != k && Reads(work[j].src, work[k].dst); j
  }

  ghost predicate Into(n: nat, f: seq<nat>, x: nat) {
    x < |f| && f[x] < n
  }

  /** An injection from fewer numbers misses none of as many. */
  lemma {:induction false} Pigeonhole(f: seq<nat>, n: nat, y: nat)
    requires |f| == n && (forall x {:trigger Into(n, f, x)} :: 0 <= x < |f| ==> Into(n, f, x)) && Distinct(f) && y < n
    ensures y in f
  {
    var all := Members(f);
    forall x | x in f
      ensures x < n
    {
      var i :| 0 <= i < |f| && f[i] == x;
      assert Into(n, f, i);
    }
    DistinctCount(f);
    if y !in f {
      assert all <= Upto(n) - {y};
      SubsetSize(all, Upto(n) - {y});
    }
  }

  /** In a stuck worklist the readers are a permutation: each move reads one pending
      destination, and each destination has one reader. */
  lemma StuckPermutes(work: seq<Pair>, v: nat)
    requires Stuck(work) && DistinctDsts(work) && v < |work|
    ensures exists u :: Next(work, u, v)
  {
    forall k | 0 <= k < |work|
      ensures BlockedAt(work, k)
    {
    }
    var f := seq(|work|, k requires 0 <= k < |work| => Reader(work, k));
    forall x | 0 <= x < |f|
      ensures Into(|work|, f, x)
    {
      assert Next(work, x, Reader(work, x));
    }
    forall i, j | 0 <= i < j < |f|
      ensures f[i] != f[j]
    {
      assert Next(work, i, f[i]) && Next(work, j, f[j]);
    }
    Pigeonhole(f, |work|, v);
    var u :| 0 <= u < |f| && f[u] == v;
    assert Next(work, u, v);
  }

  lemma OneReader(work: seq<Pair>, u: nat, v: nat, w: nat)
    requires Stuck(work) && DistinctDsts(work) && Next(work, u, v) && Next(work, u, w)
    ensures v == w
  {
    var f := seq(|work|, k requires 0 <= k < |work| => if k == u then v else Reader(work, k));
    ReadersCover(work, f, u, w);
  }

  lemma ReadersCover(work: seq<Pair>, f: seq<nat>, u: nat, w: nat)
    requires Stuck(work) && DistinctDsts(work) && |f| == |work| && (forall k :: 0 <= k < |f| ==> Next(work, k, f[k])) && Next(work, u, w)
    ensures f[u] == w
  {
    forall x | 0 <= x < |f|
      ensures Into(|work|, f, x)
    {
      assert Next(work, x, f[x]);
    }
    forall i, j | 0 <= i < j < |f|
      ensures f[i] != f[j]
    {
      assert Next(work, i, f[i]) && Next(work, j, f[j]);
    }
    Pigeonhole(f, |work|, w);
    var k :| 0 <= k < |f| && f[k] == w;
    assert Next(work, k, w);
  }

  /** Positions of the worklist, each reading the destination before it. */
  ghost predicate NextChain(work: seq<Pair>, c: seq<nat>) {
    && |c| >= 2 && Distinct(c) && (forall i :: 0 <= i < |c| ==> c[i] < |work|)
    && (forall i, j :: 0 <= i && j == i + 1 && j < |c| ==> Next(work, c[i], c[j]))
  }

  ghost predicate NextCycle(work: seq<Pair>, c: seq<nat>) {
    NextChain(work, c) && Next(work, c[|c| - 1], c[0])
  }

  lemma ChainFits(work: seq<Pair>, c: seq<nat>)
    requires NextChain(work, c)
    ensures |c| <= |work|
  {
    DistinctCount(c);
    forall x | x in c
      ensures x < |work|
    {
    }
    SubsetSize(Members(c), Upto(|work|));
  }

  /** A chain in a stuck worklist goes on until it closes. */
  lemma {:induction false} ChainCloses(work: seq<Pair>, c: seq<nat>) returns (d: seq<nat>)
    requires Stuck(work) && DistinctDsts(work) && NextChain(work, c)
    ensures NextCycle(work, d) && d[0] == c[0] && d[1] == c[1]
    decreases |work| - |c|
  {
    ChainFits(work, c);
    var last := c[|c| - 1];
    assert BlockedAt(work, last);
    var r := Reader(work, last);
    if r in c {
      var j :| 0 <= j < |c| && c[j] == r;
      assert j == 0 || Next(work, c[j - 1], c[j]);
      assert j == 0;
      d := c;
    } else {
      var c' := c + [r];
      forall i, j | 0 <= i && j == i + 1 && j < |c'|
        ensures Next(work, c'[i], c'[j])
      {
        assert j < |c| ==> Next(work, c[i], c[j]);
      }
      assert NextChain(work, c');
      ChainFits(work, c');
      d := ChainCloses(work, c');
    }
  }

  ghost predicate OnCycle(work: seq<Pair>, k: nat) {
    exists c :: NextCycle(work, c) && c[0] == k
  }

  /** A worklist is stuck exactly when every pending move is on a cycle. */
  lemma StuckExactly(work: seq<Pair>)
    requires DistinctDsts(work)
    ensures Stuck(work) <==> forall k :: 0 <= k < |work| ==> OnCycle(work, k)
  {
    if Stuck(work) {
      forall k | 0 <= k < |work|
        ensures OnCycle(work, k)
      {
        assert BlockedAt(work, k);
        var c := ChainCloses(work, [k, Reader(work, k)]);
      }
    }
    if forall k :: 0 <= k < |work| ==> OnCycle(work, k) {
      forall k | 0 <= k < |work|
        ensures BlockedAt(work, k)
      {
        assert OnCycle(work, k);
        var c :| NextCycle(work, c) && c[0] == k;
        assert Next(work, c[0], c[1]);
      }
    }
  }

  lemma PendingDistinct(s: Scratch, pairs: seq<Pair>, work: seq<Pair>, ids: seq<nat>, bad: set<nat>)
    requires PairsOk(s, pairs) && Pending(s, pairs, work, ids, bad)
    ensures DistinctDsts(work)
  {
    forall i, j | 0 <= i < |work| && 0 <= j < |work| && i != j
      ensures work[i].dst.place != work[j].dst.place
    {
      assert PendingAt(s, pairs, work, ids, bad, i) && PendingAt(s, pairs, work, ids, bad, j);
      assert ids[i] != ids[j];
      assert Independent(pairs[ids[i]], pairs[ids[j]]);
    }
  }

  /** A pending move that reads a pending destination has its own source, a register. */
  lemma NextIsDirect(s: Scratch, pairs: seq<Pair>, work: seq<Pair>, ids: seq<nat>, bad: set<nat>, u: nat, v: nat)
    requires PairsOk(s, pairs) && Pending(s, pairs, work, ids, bad) && Next(work, u, v)
    ensures u < |ids| && v < |ids| && ids[u] < |pairs| && ids[v] < |pairs|
    ensures work[v].src.place.Reg? && work[u].dst.place.Reg? && work[v] == pairs[ids[v]] && ids[v] !in bad
    ensures !IsScratch(s, work[v].src.place) && After(pairs, ids[u], ids[v])
  {
    assert PendingAt(s, pairs, work, ids, bad, u) && PendingAt(s, pairs, work, ids, bad, v);
    assert ids[u] != ids[v];
    assert MoveOk(s, pairs[ids[u]]) && Independent(pairs[ids[u]], pairs[ids[v]]);
  }

  /** Stuck: only register moves are left, none waiting in a scratch register. */
  lemma StuckDirect(s: Scratch, pairs: seq<Pair>, work: seq<Pair>, ids: seq<nat>, bad: set<nat>, k: nat)
    requires PairsOk(s, pairs) && Pending(s, pairs, work, ids, bad) && Stuck(work) && k < |work|
    ensures Direct(work[k]) && !IsScratch(s, work[k].src.place) && k < |ids| && ids[k] < |pairs| && work[k] == pairs[ids[k]]
  {
    PendingDistinct(s, pairs, work, ids, bad);
    StuckPermutes(work, k);
    var u :| Next(work, u, k);
    NextIsDirect(s, pairs, work, ids, bad, u, k);
    assert BlockedAt(work, k);
    NextIsDirect(s, pairs, work, ids, bad, k, Reader(work, k));
  }

  // ----- rescuing a destination -----

  function Tmp(s: Scratch, saved: Opd): Opd {
    Opd(Reg(if saved.float then s.fp else s.gp), saved.wide, saved.float)
  }

  function Reroute(s: Scratch, work: seq<Pair>, saved: Opd): (r: seq<Pair>)
    ensures |r| == |work|
    ensures forall k :: 0 <= k < |work| ==> r[k] == if Reads(work[k].src, saved) then Pair(work[k].dst, Tmp(s, saved)) else work[k]
  {
    seq(|work|, k requires 0 <= k < |work| => if Reads(work[k].src, saved) then Pair(work[k].dst, Tmp(s, saved)) else work[k])
  }

  ghost function Narrowed(work: seq<Pair>, ids: seq<nat>, saved: Opd): (b: set<nat>)
    requires |work| == |ids|
    ensures forall i :: i in b <==> exists k :: 0 <= k < |work| && ids[k] == i && NarrowedAt(work, saved, k)
  {
    set k | 0 <= k < |work| && NarrowedAt(work, saved, k) :: ids[k]
  }

  ghost predicate NarrowedAt(work: seq<Pair>, saved: Opd, k: nat) {
    k < |work| && Reads(work[k].src, saved) && work[k].dst.wide && !saved.wide
  }

  lemma NarrowedIff(s: Scratch, pairs: seq<Pair>, work: seq<Pair>, ids: seq<nat>, bad: set<nat>, saved: Opd, k: nat)
    requires Pending(s, pairs, work, ids, bad) && k < |work| == |ids|
    ensures ids[k] in Narrowed(work, ids, saved) <==> NarrowedAt(work, saved, k)
  {
    if ids[k] in Narrowed(work, ids, saved) {
      var l :| 0 <= l < |work| && ids[l] == ids[k] && NarrowedAt(work, saved, l);
      assert l == k;
    }
  }

  lemma RescuePending(s: Scratch, pairs: seq<Pair>, work: seq<Pair>, ids: seq<nat>, bad: set<nat>, saved: Opd)
    requires Pending(s, pairs, work, ids, bad) && PairsOk(s, pairs) && Stuck(work)
    ensures Pending(s, pairs, Reroute(s, work, saved), ids, bad + Narrowed(work, ids, saved))
  {
    var w, bad' := Reroute(s, work, saved), bad + Narrowed(work, ids, saved);
    forall k | 0 <= k < |ids|
      ensures PendingAt(s, pairs, w, ids, bad', k)
    {
      assert PendingAt(s, pairs, work, ids, bad, k);
      StuckDirect(s, pairs, work, ids, bad, k);
      NarrowedIff(s, pairs, work, ids, bad, saved, k);
    }
  }

  lemma RescueUnread(s: Scratch, pairs: seq<Pair>, work: seq<Pair>, done: set<nat>, saved: Opd)
    requires PairsOk(s, pairs) && Unread(s, pairs, work, done)
    ensures Unread(s, pairs, Reroute(s, work, saved), done)
  {
    var w := Reroute(s, work, saved);
    forall k, i | 0 <= k < |w| && i in done && i < |pairs|
      ensures w[k].src.place != pairs[i].dst.place
    {
      assert MoveOk(s, pairs[i]);
      assert work[k].src.place != pairs[i].dst.place;
    }
  }

  lemma RescueSafe(s: Scratch, pairs: seq<Pair>, work: seq<Pair>, ids: seq<nat>, bad: set<nat>, saved: Opd)
    requires PairsOk(s, pairs) && Pending(s, pairs, work, ids, bad) && Stuck(work)
    ensures ScratchSafe(s, Reroute(s, work, saved))
  {
    var w := Reroute(s, work, saved);
    forall k | 0 <= k < |w|
      ensures Direct(w[k])
    {
      StuckDirect(s, pairs, work, ids, bad, k);
    }
  }

  lemma SavedUntouched(s: Scratch, pairs: seq<Pair>, work: seq<Pair>, ids: seq<nat>, done: set<nat>, bad: set<nat>, k: nat)
    requires PairsOk(s, pairs) && Pending(s, pairs, work, ids, bad) && Split(pairs, ids, done) && k < |work|
    ensures Untouched(s, pairs, done, work[k].dst.place)
  {
    PendingDst(s, pairs, work, ids, done, bad, k);
    forall i | i in done && i < |pairs|
      ensures pairs[i].dst.place != work[k].dst.place
    {
      assert Independent(pairs[i], pairs[ids[k]]);
    }
  }

  lemma RescueGoodAt(s: Scratch, pairs: seq<Pair>, work: seq<Pair>, ids: seq<nat>, done: set<nat>, bad: set<nat>, cur: Place -> Word, e: Env, n: nat)
    requires PairsOk(s, pairs) && Pending(s, pairs, work, ids, bad) && Split(pairs, ids, done) && Stuck(work) && work != []
    requires |ids| == |work| && (forall j :: 0 <= j < |ids| ==> ids[j] < |pairs|) && GoodAt(s, pairs, work, ids, done, bad, cur, e)
    ensures GoodAt(s, pairs, Reroute(s, work, work[0].dst), ids, done, bad + Narrowed(work, ids, work[0].dst),
                   Step(s, n, Pair(Tmp(s, work[0].dst), work[0].dst), cur, e), e)
  {
    hide Pending, Split, Stuck, Narrowed;
    var saved := work[0].dst;
    var tmp, w, extra := Tmp(s, saved), Reroute(s, work, saved), Narrowed(work, ids, saved);
    var m := Pair(tmp, saved);
    var next := Step(s, n, m, cur, e);
    StuckDirect(s, pairs, work, ids, bad, 0);
    SavedUntouched(s, pairs, work, ids, done, bad, 0);
    assert Direct(m) && cur(saved.place) == e.store(saved.place);
    forall i | i in done && i < |pairs|
      ensures Holds(pairs[i], i in bad + extra, next(pairs[i].dst.place), e)
    {
      assert MoveOk(s, pairs[i]);
      DoneNotExtra(s, pairs, work, ids, done, bad, saved, i);
    }
    forall k | 0 <= k < |w| && IsScratch(s, w[k].src.place)
      ensures Holds(pairs[ids[k]], ids[k] in bad + extra, next(w[k].src.place), e)
    {
      StuckDirect(s, pairs, work, ids, bad, k);
      ReaderHolds(s, pairs, work, ids, bad, cur, e, n, k);
    }
  }

  lemma DoneNotExtra(s: Scratch, pairs: seq<Pair>, work: seq<Pair>, ids: seq<nat>, done: set<nat>, bad: set<nat>, saved: Opd, i: nat)
    requires Split(pairs, ids, done) && |work| == |ids| && i in done
    ensures i !in Narrowed(work, ids, saved)
  {
  }

  /** A rerouted reader finds what it needs in the scratch register, or half of it. */
  lemma ReaderHolds(s: Scratch, pairs: seq<Pair>, work: seq<Pair>, ids: seq<nat>, bad: set<nat>, cur: Place -> Word, e: Env, n: nat, k: nat)
    requires PairsOk(s, pairs) && Pending(s, pairs, work, ids, bad) && Stuck(work) && work != [] && k < |work| == |ids|
    requires ids[k] < |pairs| && work[k] == pairs[ids[k]] && Reads(work[k].src, work[0].dst) && cur(work[0].dst.place) == e.store(work[0].dst.place)
    ensures Holds(pairs[ids[k]], ids[k] in bad + Narrowed(work, ids, work[0].dst),
                  Step(s, n, Pair(Tmp(s, work[0].dst), work[0].dst), cur, e)(Tmp(s, work[0].dst).place), e)
  {
    hide Stuck;
    var saved := work[0].dst;
    var p := Tmp(s, saved).place;
    assert PendingAt(s, pairs, work, ids, bad, k);
    assert MoveOk(s, pairs[ids[k]]);
    assert ids[k] !in bad;
    NarrowedIff(s, pairs, work, ids, bad, saved, k);
    assert IsJunk(e, e.junk(n, p).hi);
    assert Width(Pair(Tmp(s, saved), saved)) == saved.wide;
  }

  lemma RescueGood(s: Scratch, pairs: seq<Pair>, work: seq<Pair>, ids: seq<nat>, done: set<nat>, bad: set<nat>, moves: seq<Pair>)
    requires PairsOk(s, pairs) && Pending(s, pairs, work, ids, bad) && Split(pairs, ids, done) && Stuck(work) && work != []
    requires Good(s, pairs, work, ids, done, bad, moves)
    ensures Good(s, pairs, Reroute(s, work, work[0].dst), ids, done, bad + Narrowed(work, ids, work[0].dst),
                 moves + [Pair(Tmp(s, work[0].dst), work[0].dst)])
  {
    hide PairsOk, Pending, Split, Stuck, GoodAt, Step, Exec, Reroute, Narrowed, Tmp;
    var m := Pair(Tmp(s, work[0].dst), work[0].dst);
    forall e: Env
      ensures GoodAt(s, pairs, Reroute(s, work, work[0].dst), ids, done, bad + Narrowed(work, ids, work[0].dst), Exec(s, moves + [m], e), e)
    {
      assert GoodAt(s, pairs, work, ids, done, bad, Exec(s, moves, e), e);
      RescueGoodAt(s, pairs, work, ids, done, bad, Exec(s, moves, e), e, |moves|);
      ExecAppend(s, moves, m, e);
    }
  }

  /** The cycle through the first pending move, in terms of the original moves. */
  lemma FirstCycle(s: Scratch, pairs: seq<Pair>, work: seq<Pair>, ids: seq<nat>, bad: set<nat>, k: nat) returns (c: seq<nat>)
    requires PairsOk(s, pairs) && Pending(s, pairs, work, ids, bad) && Stuck(work) && Next(work, 0, k)
    ensures k < |ids| && Cycle(pairs, c) && c[0] == ids[0] && c[1] == ids[k]
  {
    PendingDistinct(s, pairs, work, ids, bad);
    var d := ChainCloses(work, [0, k]);
    c := seq(|d|, i requires 0 <= i < |d| => ids[d[i]]);
    CycleOfPositions(s, pairs, work, ids, bad, d, c);
  }

  lemma CycleOfPositions(s: Scratch, pairs: seq<Pair>, work: seq<Pair>, ids: seq<nat>, bad: set<nat>, d: seq<nat>, c: seq<nat>)
    requires PairsOk(s, pairs) && Pending(s, pairs, work, ids, bad) && NextCycle(work, d) && d[0] == 0
    requires |c| == |d| && forall i :: 0 <= i < |d| ==> d[i] < |ids| && c[i] == ids[d[i]]
    ensures Cycle(pairs, c)
  {
    hide PairsOk;
    forall i, j | 0 <= i < j < |c|
      ensures c[i] != c[j]
    {
      assert d[i] != d[j];
      assert ids[d[i]] != ids[d[j]];
    }
    forall i, j | 0 <= i && j == i + 1 && j < |c|
      ensures After(pairs, c[i], c[j])
    {
      NextIsDirect(s, pairs, work, ids, bad, d[i], d[j]);
    }
    NextIsDirect(s, pairs, work, ids, bad, d[|d| - 1], d[0]);
    assert After(pairs, c[|c| - 1], c[0]);
    forall i | 0 <= i < |c|
      ensures c[0] <= c[i]
    {
      assert d[i] == 0 || ids[0] < ids[d[i]];
    }
  }

  /** What is narrowed is the reader in a narrowing cycle. */
  lemma NarrowedIsNarrowing(s: Scratch, pairs: seq<Pair>, work: seq<Pair>, ids: seq<nat>, bad: set<nat>, i: nat)
    requires PairsOk(s, pairs) && Pending(s, pairs, work, ids, bad) && Stuck(work) && work != [] && |ids| == |work|
    requires i in Narrowed(work, ids, work[0].dst)
    ensures exists c :: Narrowing(pairs, c) && c[1] == i
  {
    hide PairsOk, Stuck;
    var k :| 0 <= k < |work| && ids[k] == i && NarrowedAt(work, work[0].dst, k);
    StuckDirect(s, pairs, work, ids, bad, k);
    StuckDirect(s, pairs, work, ids, bad, 0);
    assert PendingAt(s, pairs, work, ids, bad, k) && k != 0;
    assert Next(work, 0, k);
    var c := FirstCycle(s, pairs, work, ids, bad, k);
    assert Narrowing(pairs, c);
  }

  /** A narrowing cycle is left alone, or is the one being broken. */
  lemma RescueCycle(s: Scratch, pairs: seq<Pair>, work: seq<Pair>, ids: seq<nat>, bad: set<nat>, c: seq<nat>)
    requires PairsOk(s, pairs) && Pending(s, pairs, work, ids, bad) && work != [] && |ids| == |work|
    requires Narrowing(pairs, c) && Intact(pairs, work, ids, c)
    ensures Intact(pairs, Reroute(s, work, work[0].dst), ids, c) || c[1] in Narrowed(work, ids, work[0].dst)
  {
    assert PendingAt(s, pairs, work, ids, bad, 0);
    if ids[0] in c {
      assert IntactAt(pairs, work, ids, c[0]) && IntactAt(pairs, work, ids, c[1]);
      var a :| 0 <= a < |ids| && a < |work| && ids[a] == c[0];
      assert a == 0;
      var k :| 0 <= k < |ids| && k < |work| && ids[k] == c[1] && work[k] == pairs[c[1]];
      assert After(pairs, c[0], c[1]);
      assert NarrowedAt(work, work[0].dst, k);
    } else {
      var w := Reroute(s, work, work[0].dst);
      forall i | 0 <= i < |c|
        ensures IntactAt(pairs, w, ids, c[i])
      {
        CycleElsewhere(s, pairs, work, ids, bad, c, i);
      }
    }
  }

  lemma CycleElsewhere(s: Scratch, pairs: seq<Pair>, work: seq<Pair>, ids: seq<nat>, bad: set<nat>, c: seq<nat>, i: nat)
    requires PairsOk(s, pairs) && Pending(s, pairs, work, ids, bad) && work != [] && |ids| == |work|
    requires Cycle(pairs, c) && Intact(pairs, work, ids, c) && ids[0] !in c && i < |c|
    ensures IntactAt(pairs, Reroute(s, work, work[0].dst), ids, c[i])
  {
    assert IntactAt(pairs, work, ids, c[i]);
    var k :| 0 <= k < |ids| && k < |work| && ids[k] == c[i] && work[k] == pairs[c[i]];
    var p := if i > 0 then i - 1 else |c| - 1;
    assert After(pairs, c[p], c[i]);
    assert PendingAt(s, pairs, work, ids, bad, 0) && c[p] in c;
    assert Independent(pairs[c[p]], pairs[ids[0]]);
    assert Reroute(s, work, work[0].dst)[k] == work[k];
  }

  lemma RescueTracked(s: Scratch, pairs: seq<Pair>, work: seq<Pair>, ids: seq<nat>, bad: set<nat>)
    requires PairsOk(s, pairs) && Pending(s, pairs, work, ids, bad) && Stuck(work) && work != [] && |ids| == |work|
    requires Tracked(pairs, work, ids, bad)
    ensures Tracked(pairs, Reroute(s, work, work[0].dst), ids, bad + Narrowed(work, ids, work[0].dst))
  {
    hide PairsOk, Pending, Stuck, Intact, Narrowed, Reroute;
    var w, extra := Reroute(s, work, work[0].dst), Narrowed(work, ids, work[0].dst);
    forall i | i in bad + extra
      ensures exists c :: Narrowing(pairs, c) && c[1] == i
    {
      if i in extra {
        NarrowedIsNarrowing(s, pairs, work, ids, bad, i);
      }
    }
    forall c | Narrowing(pairs, c)
      ensures Intact(pairs, w, ids, c) || c[1] in bad + extra
    {
      if c[1] !in bad {
        RescueCycle(s, pairs, work, ids, bad, c);
      }
    }
  }

  lemma RescueInv(s: Scratch, pairs: seq<Pair>, work: seq<Pair>, ids: seq<nat>, done: set<nat>, bad: set<nat>, moves: seq<Pair>)
    requires Inv(s, pairs, work, ids, done, bad, moves) && Stuck(work) && work != []
    ensures |work| == |ids|
    ensures Inv(s, pairs, Reroute(s, work, work[0].dst), ids, done, bad + Narrowed(work, ids, work[0].dst),
                moves + [Pair(Tmp(s, work[0].dst), work[0].dst)])
  {
    hide PairsOk, Pending, Split, Unread, ScratchSafe, Good, Tracked, Stuck;
    PendingSizes(s, pairs, work, ids, bad);
    RescuePending(s, pairs, work, ids, bad, work[0].dst);
    RescueUnread(s, pairs, work, done, work[0].dst);
    RescueSafe(s, pairs, work, ids, bad, work[0].dst);
    RescueTracked(s, pairs, work, ids, bad);
    RescueGood(s, pairs, work, ids, done, bad, moves);
  }

  // ----- the whole sequence -----

  method FirstUnblocked(work: seq<Pair>) returns (r: Option<nat>)
    ensures r.Some? ==> Unblocked(work, r.value) && forall k :: 0 <= k < r.value ==> BlockedAt(work, k)
    ensures r.None? ==> Stuck(work)
  {
    for i := 0 to |work|
      invariant forall k :: 0 <= k < i ==> BlockedAt(work, k)
    {
      var blocked := false;
      for j := 0 to |work|
        invariant !blocked ==> forall l :: 0 <= l < j && l != i ==> !Reads(work[l].src, work[i].dst)
        invariant blocked ==> BlockedAt(work, i)
      {
        if i != j && Reads(work[j].src, work[i].dst) {
          blocked := true;
        }
      }
      if !blocked {
        return Some(i);
      }
    }
    r := None;
  }

  method FirstRegister(work: seq<Pair>) returns (r: Option<nat>)
    ensures r.Some? ==> r.value < |work| && work[r.value].dst.place.Reg? && forall k :: 0 <= k < r.value ==> !work[k].dst.place.Reg?
    ensures r.None? ==> forall k :: 0 <= k < |work| ==> !work[k].dst.place.Reg?
  {
    for i := 0 to |work|
      invariant forall k :: 0 <= k < i ==> !work[k].dst.place.Reg?
    {
      if work[i].dst.place.Reg? {
        return Some(i);
      }
    }
    r := None;
  }

  ghost function Plain(s: Scratch, work: seq<Pair>): (r: set<nat>)
    ensures forall k: nat :: k in r <==> k < |work| && !IsScratch(s, work[k].src.place)
  {
    set k | k in Upto(|work|) && !IsScratch(s, work[k].src.place)
  }

  lemma RescueShrinks(s: Scratch, pairs: seq<Pair>, work: seq<Pair>, ids: seq<nat>, bad: set<nat>)
    requires PairsOk(s, pairs) && Pending(s, pairs, work, ids, bad) && Stuck(work) && work != []
    ensures Plain(s, Reroute(s, work, work[0].dst)) < Plain(s, work)
  {
    assert BlockedAt(work, 0);
    var k := Reader(work, 0);
    StuckDirect(s, pairs, work, ids, bad, k);
    assert k in Plain(s, work) && k !in Plain(s, Reroute(s, work, work[0].dst));
  }

  lemma InvParts(s: Scratch, pairs: seq<Pair>, work: seq<Pair>, ids: seq<nat>, done: set<nat>, bad: set<nat>, moves: seq<Pair>)
    requires Inv(s, pairs, work, ids, done, bad, moves)
    ensures PairsOk(s, pairs) && Pending(s, pairs, work, ids, bad) && |ids| == |work|
  {
  }

  /** The pairs that move something, with their positions. */
  method Moving(s: Scratch, pairs: seq<Pair>) returns (work: seq<Pair>, ghost ids: seq<nat>)
    ensures |work| == |ids| && Pending(s, pairs, work, ids, {}) && Split(pairs, ids, {}) && work == MovesOf(pairs)
    ensures forall k :: 0 <= k < |ids| ==> ids[k] < |pairs| && work[k] == pairs[ids[k]]
  {
    work, ids := [], [];
    for i := 0 to |pairs|
      invariant |work| == |ids| && forall k :: 0 <= k < |ids| ==> ids[k] < i && work[k] == pairs[ids[k]] && !Same(work[k])
      invariant forall k, l :: 0 <= k < l < |ids| ==> ids[k] < ids[l]
      invariant forall j :: 0 <= j < i && !Same(pairs[j]) ==> j in ids
      invariant work == MovesOf(pairs[..i])
    {
      assert pairs[..i + 1] == pairs[..i] + [pairs[i]];
      if !Same(pairs[i]) {
        work, ids := work + [pairs[i]], ids + [i];
      }
    }
    assert pairs[..|pairs|] == pairs;
  }

  lemma StartInv(s: Scratch, pairs: seq<Pair>, work: seq<Pair>, ids: seq<nat>)
    requires |work| == |ids| && Pending(s, pairs, work, ids, {}) && Split(pairs, ids, {})
    requires forall k :: 0 <= k < |ids| ==> ids[k] < |pairs| && work[k] == pairs[ids[k]]
    ensures PairsOk(s, pairs) ==> Inv(s, pairs, work, ids, {}, {}, [])
  {
    if PairsOk(s, pairs) {
      StartGood(s, pairs, work, ids);
    }
  }

  lemma StartGood(s: Scratch, pairs: seq<Pair>, work: seq<Pair>, ids: seq<nat>)
    requires PairsOk(s, pairs) && |work| == |ids| && Pending(s, pairs, work, ids, {}) && Split(pairs, ids, {})
    requires forall k :: 0 <= k < |ids| ==> ids[k] < |pairs| && work[k] == pairs[ids[k]]
    ensures Inv(s, pairs, work, ids, {}, {}, [])
  {
    hide Pending;
    forall k | 0 <= k < |work|
      ensures !IsScratch(s, work[k].src.place)
    {
      assert MoveOk(s, pairs[ids[k]]);
    }
    forall c | Narrowing(pairs, c)
      ensures Intact(pairs, work, ids, c)
    {
      forall i | 0 <= i < |c|
        ensures IntactAt(pairs, work, ids, c[i])
      {
        CycleMoves(s, pairs, c, i);
        var k :| 0 <= k < |ids| && ids[k] == c[i];
      }
    }
    assert Good(s, pairs, work, ids, {}, {}, []) by {
      forall e: Env
        ensures GoodAt(s, pairs, work, ids, {}, {}, Exec(s, [], e), e)
      {
      }
    }
  }

  /** A move on a cycle does something. */
  lemma CycleMoves(s: Scratch, pairs: seq<Pair>, c: seq<nat>, i: nat)
    requires PairsOk(s, pairs) && Cycle(pairs, c) && i < |c|
    ensures c[i] < |pairs| && !Same(pairs[c[i]])
  {
    var p := if i > 0 then i - 1 else |c| - 1;
    assert After(pairs, c[p], c[i]);
    assert Independent(pairs[c[p]], pairs[c[i]]);
  }

  ghost predicate CorrectAt(s: Scratch, pairs: seq<Pair>, moves: seq<Pair>, e: Env) {
    forall i :: 0 <= i < |pairs| ==> Delivered(pairs[i], Exec(s, moves, e)(pairs[i].dst.place), e)
  }

  /** Every destination ends with its source's original value, whatever the places held. */
  ghost predicate Correct(s: Scratch, pairs: seq<Pair>, moves: seq<Pair>) {
    forall e: Env :: CorrectAt(s, pairs, moves, e)
  }

  /** Low halves are always right, and nothing else is written but scratch registers. */
  ghost predicate LowCorrect(s: Scratch, pairs: seq<Pair>, moves: seq<Pair>) {
    && (forall e: Env, i :: 0 <= i < |pairs| ==> LowAt(s, pairs[i], moves, e))
    && (forall e: Env, p: Place :: Elsewhere(s, pairs, p) ==> Exec(s, moves, e)(p) == e.store(p))
  }

  ghost predicate LowAt(s: Scratch, m: Pair, moves: seq<Pair>, e: Env) {
    Exec(s, moves, e)(m.dst.place).lo == e.store(m.src.place).lo
  }

  ghost predicate Elsewhere(s: Scratch, pairs: seq<Pair>, p: Place) {
    !IsScratch(s, p) && forall i :: 0 <= i < |pairs| ==> pairs[i].dst.place != p
  }

  /** What each destination holds at the end. */
  lemma FinalHolds(s: Scratch, pairs: seq<Pair>, done: set<nat>, bad: set<nat>, moves: seq<Pair>, e: Env, i: nat)
    requires Inv(s, pairs, [], [], done, bad, moves) && i < |pairs|
    ensures Holds(pairs[i], i in bad, Exec(s, moves, e)(pairs[i].dst.place), e) || (Same(pairs[i]) && Delivered(pairs[i], Exec(s, moves, e)(pairs[i].dst.place), e))
  {
    hide Exec, Tracked;
    assert GoodAt(s, pairs, [], [], done, bad, Exec(s, moves, e), e);
    if Same(pairs[i]) {
      var p := pairs[i].dst.place;
      assert MoveOk(s, pairs[i]);
      forall j | j in done && j < |pairs|
        ensures pairs[j].dst.place != p
      {
        assert Independent(pairs[j], pairs[i]);
      }
      assert Untouched(s, pairs, done, p);
    }
  }

  lemma FinalElsewhere(s: Scratch, pairs: seq<Pair>, done: set<nat>, bad: set<nat>, moves: seq<Pair>, e: Env, p: Place)
    requires Inv(s, pairs, [], [], done, bad, moves) && Elsewhere(s, pairs, p)
    ensures Exec(s, moves, e)(p) == e.store(p)
  {
    hide Exec, Tracked;
    assert GoodAt(s, pairs, [], [], done, bad, Exec(s, moves, e), e);
    assert Untouched(s, pairs, done, p);
  }

  lemma FinalLow(s: Scratch, pairs: seq<Pair>, done: set<nat>, bad: set<nat>, moves: seq<Pair>)
    requires Inv(s, pairs, [], [], done, bad, moves)
    ensures LowCorrect(s, pairs, moves)
  {
    hide Inv, Exec;
    forall e: Env, i | 0 <= i < |pairs|
      ensures LowAt(s, pairs[i], moves, e)
    {
      FinalHolds(s, pairs, done, bad, moves, e, i);
    }
    forall e: Env, p: Place | Elsewhere(s, pairs, p)
      ensures Exec(s, moves, e)(p) == e.store(p)
    {
      FinalElsewhere(s, pairs, done, bad, moves, e, p);
    }
  }

  /** High halves are all right exactly when no cycle narrows. */
  lemma FinalExactly(s: Scratch, pairs: seq<Pair>, done: set<nat>, bad: set<nat>, moves: seq<Pair>)
    requires Inv(s, pairs, [], [], done, bad, moves)
    ensures Correct(s, pairs, moves) <==> WidthsOk(pairs)
  {
    if WidthsOk(pairs) {
      assert bad == {};
      forall e: Env
        ensures CorrectAt(s, pairs, moves, e)
      {
        FinalCorrect(s, pairs, done, moves, e);
      }
    } else {
      var c :| Narrowing(pairs, c);
      NotIntact(pairs, c);
      FinalWrong(s, pairs, done, bad, moves, c);
    }
  }

  lemma FinalCorrect(s: Scratch, pairs: seq<Pair>, done: set<nat>, moves: seq<Pair>, e: Env)
    requires Inv(s, pairs, [], [], done, {}, moves)
    ensures CorrectAt(s, pairs, moves, e)
  {
    hide Inv, Exec;
    forall i | 0 <= i < |pairs|
      ensures Delivered(pairs[i], Exec(s, moves, e)(pairs[i].dst.place), e)
    {
      FinalHolds(s, pairs, done, {}, moves, e, i);
    }
  }

  lemma NotIntact(pairs: seq<Pair>, c: seq<nat>)
    requires Cycle(pairs, c)
    ensures !Intact(pairs, [], [], c)
  {
    assert !IntactAt(pairs, [], [], c[0]);
  }

  /** With zero words and all-ones junk, the reader of a narrowing cycle is wrong. */
  lemma FinalWrong(s: Scratch, pairs: seq<Pair>, done: set<nat>, bad: set<nat>, moves: seq<Pair>, c: seq<nat>)
    requires Inv(s, pairs, [], [], done, bad, moves) && Narrowing(pairs, c) && c[1] in bad
    ensures !Correct(s, pairs, moves)
  {
    hide Inv, Exec;
    var e := Env(_ => Word(0, 0), (_, _) => Word(0, 1));
    NarrowingReader(s, pairs, done, bad, moves, c);
    FinalHolds(s, pairs, done, bad, moves, e, c[1]);
    assert !Delivered(pairs[c[1]], Exec(s, moves, e)(pairs[c[1]].dst.place), e);
    assert !CorrectAt(s, pairs, moves, e);
  }

  lemma NarrowingReader(s: Scratch, pairs: seq<Pair>, done: set<nat>, bad: set<nat>, moves: seq<Pair>, c: seq<nat>)
    requires Inv(s, pairs, [], [], done, bad, moves) && Narrowing(pairs, c)
    ensures c[1] < |pairs| && pairs[c[1]].dst.wide && !Same(pairs[c[1]])
  {
    CycleMoves(s, pairs, c, 1);
  }

  // ----- moves that need no reordering -----

  /** The pairs that move something, in order. */
  function MovesOf(pairs: seq<Pair>): seq<Pair> {
    if pairs == [] then []
    else
      var m, rest := pairs[|pairs| - 1], MovesOf(pairs[..|pairs| - 1]);
      if Same(m) then rest else rest + [m]
  }

  /** Nothing is read after an earlier move has changed it. Destinations may repeat. */
  ghost predicate Ordered(s: Scratch, pairs: seq<Pair>) {
    && (forall i :: 0 <= i < |pairs| ==> MoveOk(s, pairs[i]))
    && (forall i, j :: 0 <= i < j < |pairs| && Reads(pairs[j].src, pairs[i].dst) ==> Same(pairs[i]))
  }

  /** No move reads an earlier one's destination. */
  ghost predicate Forward(work: seq<Pair>) {
    forall i, j :: 0 <= i < j < |work| ==> !Reads(work[j].src, work[i].dst)
  }

  lemma {:induction false} OrderedForward(s: Scratch, pairs: seq<Pair>)
    requires Ordered(s, pairs)
    ensures Forward(MovesOf(pairs)) && forall m :: m in MovesOf(pairs) ==> m in pairs && !Same(m)
  {
    if pairs != [] {
      var m, init := pairs[|pairs| - 1], pairs[..|pairs| - 1];
      OrderedForward(s, init);
      var rest := MovesOf(init);
      forall i | 0 <= i < |rest| && !Same(m)
        ensures !Reads(m.src, rest[i].dst)
      {
        assert rest[i] in init;
        var x :| 0 <= x < |init| && init[x] == rest[i];
        assert pairs[x] == rest[i];
      }
    }
  }

  /** The first pending move is then free to go. */
  lemma FirstIsFree(work: seq<Pair>)
    ensures Forward(work) && work != [] ==> Unblocked(work, 0) && !BlockedAt(work, 0) && !Stuck(work)
  {
  }

  /** The worklist is emptied from the front. */
  ghost predicate Queue(pairs: seq<Pair>, work: seq<Pair>, moves: seq<Pair>) {
    Forward(work) && moves + work == MovesOf(pairs)
  }

  lemma QueueStart(s: Scratch, pairs: seq<Pair>, work: seq<Pair>)
    requires work == MovesOf(pairs)
    ensures Ordered(s, pairs) ==> Queue(pairs, work, [])
  {
    if Ordered(s, pairs) {
      OrderedForward(s, pairs);
    }
  }

  lemma QueueNext(pairs: seq<Pair>, work: seq<Pair>, moves: seq<Pair>, k: nat)
    requires Queue(pairs, work, moves) && k < |work| && forall l :: 0 <= l < k ==> BlockedAt(work, l)
    ensures Queue(pairs, Drop(work, k), moves + [work[k]])
  {
    FirstIsFree(work);
    assert k == 0;
    assert moves + work == moves + [work[0]] + work[1..];
  }

  /** No later move has the same destination. */
  ghost predicate LastTo(pairs: seq<Pair>, i: nat)
    requires i < |pairs|
  {
    forall j :: i < j < |pairs| ==> pairs[j].dst.place != pairs[i].dst.place
  }

  /** Only moves onto themselves have p as destination. */
  ghost predicate Idle(s: Scratch, pairs: seq<Pair>, p: Place) {
    !IsScratch(s, p) && forall i :: 0 <= i < |pairs| && pairs[i].dst.place == p ==> Same(pairs[i])
  }

  /** Every destination holds the original of the last source moved to it. */
  ghost predicate LastWins(s: Scratch, pairs: seq<Pair>, moves: seq<Pair>) {
    forall e: Env :: LastWinsAt(s, pairs, Exec(s, moves, e), e)
  }

  ghost predicate LastWinsAt(s: Scratch, pairs: seq<Pair>, cur: Place -> Word, e: Env) {
    && (forall i :: 0 <= i < |pairs| && LastTo(pairs, i) ==> Delivered(pairs[i], cur(pairs[i].dst.place), e))
    && (forall p: Place :: Idle(s, pairs, p) ==> cur(p) == e.store(p))
  }

  lemma MoveLast(s: Scratch, pairs: seq<Pair>, cur: Place -> Word, next: Place -> Word, e: Env, k: nat)
    requires pairs != [] && Ordered(s, pairs) && LastWinsAt(s, pairs[..|pairs| - 1], cur, e)
    requires if Same(pairs[|pairs| - 1]) then next == cur else next == Step(s, k, pairs[|pairs| - 1], cur, e)
    ensures LastWinsAt(s, pairs, next, e)
  {
    hide LastTo, Idle, Delivered, Reads, Same;
    var n := |pairs| - 1;
    var init, m := pairs[..n], pairs[n];
    SourceIdle(s, pairs);
    LastDelivers(s, m, cur, next, e, k);
    forall i | 0 <= i < n && LastTo(pairs, i)
      ensures Delivered(pairs[i], next(pairs[i].dst.place), e)
    {
      LastBefore(pairs, i);
      assert init[i] == pairs[i] && MoveOk(s, pairs[i]);
      assert Delivered(init[i], cur(init[i].dst.place), e);
      OtherKept(s, m, cur, next, e, k, pairs[i].dst.place);
    }
    forall p: Place | Idle(s, pairs, p)
      ensures next(p) == e.store(p)
    {
      IdleBefore(s, pairs, p);
      OtherKept(s, m, cur, next, e, k, p);
    }
  }

  lemma LastDelivers(s: Scratch, m: Pair, cur: Place -> Word, next: Place -> Word, e: Env, k: nat)
    requires MoveOk(s, m) && cur(m.src.place) == e.store(m.src.place)
    requires if Same(m) then next == cur else next == Step(s, k, m, cur, e)
    ensures Delivered(m, next(m.dst.place), e)
  {
    assert m.dst.wide ==> Width(m);
  }

  lemma OtherKept(s: Scratch, m: Pair, cur: Place -> Word, next: Place -> Word, e: Env, k: nat, p: Place)
    requires if Same(m) then next == cur else next == Step(s, k, m, cur, e)
    requires !IsScratch(s, p) && (m.dst.place == p ==> Same(m))
    ensures next(p) == cur(p)
  {
  }

  lemma IdleBefore(s: Scratch, pairs: seq<Pair>, p: Place)
    requires pairs != [] && Idle(s, pairs, p)
    ensures Idle(s, pairs[..|pairs| - 1], p) && !IsScratch(s, p)
    ensures pairs[|pairs| - 1].dst.place == p ==> Same(pairs[|pairs| - 1])
  {
    var init := pairs[..|pairs| - 1];
    assert forall i :: 0 <= i < |init| ==> init[i] == pairs[i];
  }

  lemma SourceIdle(s: Scratch, pairs: seq<Pair>)
    requires pairs != [] && Ordered(s, pairs)
    ensures Ordered(s, pairs[..|pairs| - 1]) && Idle(s, pairs[..|pairs| - 1], pairs[|pairs| - 1].src.place)
  {
    var n := |pairs| - 1;
    var init, m := pairs[..n], pairs[n];
    assert MoveOk(s, m);
    forall i | 0 <= i < n && init[i].dst.place == m.src.place
      ensures Same(init[i])
    {
      assert init[i] == pairs[i] && MoveOk(s, pairs[i]);
      assert Reads(m.src, pairs[i].dst);
    }
  }

  lemma LastBefore(pairs: seq<Pair>, i: nat)
    requires i < |pairs| - 1 && LastTo(pairs, i)
    ensures LastTo(pairs[..|pairs| - 1], i) && pairs[|pairs| - 1].dst.place != pairs[i].dst.place
  {
  }

  /** Made in order, such moves leave each destination with the original of the last
      source moved to it. */
  lemma {:induction false} InOrderWins(s: Scratch, pairs: seq<Pair>, e: Env)
    requires Ordered(s, pairs)
    ensures LastWinsAt(s, pairs, Exec(s, MovesOf(pairs), e), e)
  {
    if pairs != [] {
      hide Ordered, LastWinsAt, Step;
      var n := |pairs| - 1;
      var init, rest := pairs[..n], MovesOf(pairs[..n]);
      SourceIdle(s, pairs);
      InOrderWins(s, init, e);
      ExecAppend(s, rest, pairs[n], e);
      MoveLast(s, pairs, Exec(s, rest, e), Exec(s, MovesOf(pairs), e), e, |rest|);
    }
  }

  /** Orders the moves. On distinct destinations it never fails, the low half of every
      destination is right, and the whole is right for all contents exactly when no
      register cycle starts at a destination narrower than its reader. Moves that read
      nothing an earlier one has changed are made in the order given. */
  method ParallelMove(s: Scratch, pairs: seq<Pair>) returns (r: Option<seq<Pair>>)
    requires (PairsOk(s, pairs) || Ordered(s, pairs)) && s.gp != s.fp
    ensures r.Some?
    ensures PairsOk(s, pairs) ==> LowCorrect(s, pairs, r.value) && (Correct(s, pairs, r.value) <==> WidthsOk(pairs))
    ensures Ordered(s, pairs) ==> r.value == MovesOf(pairs) && LastWins(s, pairs, r.value)
  {
    hide Inv, PairsOk, Ordered, Pending, Unblocked, Stuck, LowCorrect, Correct, WidthsOk, Split, Queue, MovesOf, LastWinsAt, BlockedAt;
    var work;
    ghost var ids;
    work, ids := Moving(s, pairs);
    var moves: seq<Pair> := [];
    ghost var done: set<nat>, bad: set<nat> := {}, {};
    StartInv(s, pairs, work, ids);
    QueueStart(s, pairs, work);
    while |work| > 0
      invariant PairsOk(s, pairs) ==> Inv(s, pairs, work, ids, done, bad, moves)
      invariant Ordered(s, pairs) ==> Queue(pairs, work, moves)
      invariant |ids| == |work|
      decreases |work|, Plain(s, work)
    {
      var idx := FirstUnblocked(work);
      if idx.Some? {
        var k := idx.value;
        Emitted(s, pairs, work, ids, done, bad, moves, k);
        moves := moves + [work[k]];
        done := done + {ids[k]};
        work, ids := Drop(work, k), Drop(ids, k);
        continue;
      }
      var ci := FirstRegister(work);
      QueueGoes(pairs, work, moves);
      Rescued(s, pairs, work, ids, done, bad, moves);
      if ci.None? {
        return None;
      }
      var saved := work[ci.value].dst;
      moves := moves + [Pair(Tmp(s, saved), saved)];
      bad := bad + Narrowed(work, ids, saved);
      work := Reroute(s, work, saved);
    }
    Finished(s, pairs, work, ids, done, bad, moves);
    r := Some(moves);
  }

  lemma QueueGoes(pairs: seq<Pair>, work: seq<Pair>, moves: seq<Pair>)
    requires work != [] && Stuck(work)
    ensures !Queue(pairs, work, moves)
  {
    FirstIsFree(work);
  }

  /** One unblocked move, for both kinds of input. */
  lemma Emitted(s: Scratch, pairs: seq<Pair>, work: seq<Pair>, ids: seq<nat>, done: set<nat>, bad: set<nat>, moves: seq<Pair>, k: nat)
    requires PairsOk(s, pairs) ==> Inv(s, pairs, work, ids, done, bad, moves)
    requires Ordered(s, pairs) ==> Queue(pairs, work, moves)
    requires |ids| == |work| && Unblocked(work, k) && forall l :: 0 <= l < k ==> BlockedAt(work, l)
    ensures k < |work|
    ensures PairsOk(s, pairs) ==> Inv(s, pairs, Drop(work, k), Drop(ids, k), done + {ids[k]}, bad, moves + [work[k]])
    ensures Ordered(s, pairs) ==> Queue(pairs, Drop(work, k), moves + [work[k]])
  {
    hide Inv, PairsOk, Ordered, Queue, Unblocked, BlockedAt;
    UnblockedRange(work, k);
    if PairsOk(s, pairs) {
      EmitInv(s, pairs, work, ids, done, bad, moves, k);
    }
    if Ordered(s, pairs) {
      QueueNext(pairs, work, moves, k);
    }
  }

  /** A stuck worklist: a register destination is saved. */
  lemma Rescued(s: Scratch, pairs: seq<Pair>, work: seq<Pair>, ids: seq<nat>, done: set<nat>, bad: set<nat>, moves: seq<Pair>)
    requires work != [] && Stuck(work) && |ids| == |work|
    requires PairsOk(s, pairs) && Inv(s, pairs, work, ids, done, bad, moves)
    ensures work[0].dst.place.Reg? && Plain(s, Reroute(s, work, work[0].dst)) < Plain(s, work)
    ensures Inv(s, pairs, Reroute(s, work, work[0].dst), ids, done, bad + Narrowed(work, ids, work[0].dst),
                moves + [Pair(Tmp(s, work[0].dst), work[0].dst)])
  {
    hide Inv, PairsOk, Stuck;
    InvParts(s, pairs, work, ids, done, bad, moves);
    StuckDirect(s, pairs, work, ids, bad, 0);
    RescueShrinks(s, pairs, work, ids, bad);
    RescueInv(s, pairs, work, ids, done, bad, moves);
  }

  lemma Finished(s: Scratch, pairs: seq<Pair>, work: seq<Pair>, ids: seq<nat>, done: set<nat>, bad: set<nat>, moves: seq<Pair>)
    requires work == [] && ids == []
    requires PairsOk(s, pairs) ==> Inv(s, pairs, work, ids, done, bad, moves)
    requires Ordered(s, pairs) ==> Queue(pairs, work, moves)
    ensures PairsOk(s, pairs) ==> LowCorrect(s, pairs, moves) && (Correct(s, pairs, moves) <==> WidthsOk(pairs))
    ensures Ordered(s, pairs) ==> moves == MovesOf(pairs) && LastWins(s, pairs, moves)
  {
    hide PairsOk, Ordered, LowCorrect, Correct, WidthsOk, Inv, LastWinsAt;
    if PairsOk(s, pairs) {
      FinalLow(s, pairs, done, bad, moves);
      FinalExactly(s, pairs, done, bad, moves);
    }
    if Ordered(s, pairs) {
      assert moves + [] == moves;
      forall e: Env
        ensures LastWinsAt(s, pairs, Exec(s, moves, e), e)
      {
        InOrderWins(s, pairs, e);
      }
    }
  }

  /** A narrow register and a wide one swapped, in that order, narrow. */
  lemma SwapNarrows(x: nat, y: nat, pairs: seq<Pair>)
    requires x != y
    requires pairs == [Pair(Opd(Reg(x), false, false), Opd(Reg(y), false, false)), Pair(Opd(Reg(y), true, false), Opd(Reg(x), true, false))]
    ensures !WidthsOk(pairs)
  {
    assert Narrowing(pairs, [0, 1]);
  }
}
