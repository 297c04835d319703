/** The list of blinking characters of fish/blink.S, kept in the fixed pool of fish/fish.c. */
module BlinkList {
  import opened Common
  import opened CString
  import Division

  const SLOTS := 2000   // 80 * 25, also the number of screen locations
  const HALF_WORD := 0x1_0000
  const NULL := -1

  type Word = x: nat | x < 0x1_0000

  /** struct mp1_blink_struct, `next` being a slot number. */
  datatype Blink = Blink(location: Word, onChar: Byte, offChar: Byte, onLength: Word, offLength: Word,
                         countdown: Word, status: Word, next: int)

  /** A slot after memset. */
  const CLEAR := Blink(0, 0, 0, 0, 0, 0, 0, NULL)

  /** blink_array, mp1_list_head and the text bytes of the mapped screen. */
  datatype Pool = Pool(slots: seq<Blink>, head: int, video: seq<Byte>)

  ghost predicate Sized(p: Pool) {
    |p.slots| == SLOTS && |p.video| == 2 * SLOTS
  }

  /** Following `next` from `at` visits exactly the slots of `order`, none twice, and ends in null. */
  ghost predicate Chain(slots: seq<Blink>, at: int, order: seq<nat>)
    decreases order
  {
    if order == [] then at == NULL
    else
      && at == order[0] && order[0] < |slots| && order[0] !in order[1..]
      && Chain(slots, slots[order[0]].next, order[1..])
  }

  /** The list is exactly the slots with a nonzero location; every other slot is clear. */
  ghost predicate Covers(slots: seq<Blink>, order: seq<nat>) {
    forall i | 0 <= i < |slots| ::
      && slots[i].location < SLOTS && (slots[i].location != 0 <==> i in order)
      && (slots[i].location == 0 ==> slots[i] == CLEAR)
  }

  ghost predicate Lists(p: Pool, order: seq<nat>) {
    Sized(p) && Chain(p.slots, p.head, order) && Covers(p.slots, order)
  }

  /** The link that leads to position k of the list */
  ghost function LinkTo(order: seq<nat>, k: nat): int {
    if k < |order| then order[k] else NULL
  }

  lemma {:induction false} ChainBounds(slots: seq<Blink>, at: int, order: seq<nat>)
    requires Chain(slots, at, order)
    ensures forall k | 0 <= k < |order| :: order[k] < |slots|
    ensures forall j, k | 0 <= j < k < |order| :: order[j] != order[k]
    ensures at == LinkTo(order, 0)
    decreases order
  {
    if order != [] {
      var at', rest := slots[order[0]].next, order[1..];
      ChainBounds(slots, at', rest);
      assert forall k | 0 < k < |order| :: order[k] == rest[k - 1] && order[k] in rest;
    }
  }

  lemma {:induction false} ChainNext(slots: seq<Blink>, at: int, order: seq<nat>, k: nat)
    requires Chain(slots, at, order) && k < |order|
    ensures order[k] < |slots| && slots[order[k]].next == LinkTo(order, k + 1)
    decreases order
  {
    if k > 0 { ChainNext(slots, slots[order[0]].next, order[1..], k - 1); }
  }

  /** The list is determined by the pool. */
  lemma {:induction false} ChainUnique(slots: seq<Blink>, at: int, a: seq<nat>, b: seq<nat>)
    requires Chain(slots, at, a) && Chain(slots, at, b)
    ensures a == b
    decreases a
  {
    if a != [] && b != [] {
      ChainUnique(slots, slots[a[0]].next, a[1..], b[1..]);
      assert a == [a[0]] + a[1..] && b == [b[0]] + b[1..];
    }
  }

  /** Only the `next` fields of listed slots matter. */
  lemma {:induction false} ChainFrame(slots: seq<Blink>, now: seq<Blink>, at: int, order: seq<nat>)
    requires Chain(slots, at, order) && |now| == |slots|
    requires forall i | 0 <= i < |slots| && i in order :: now[i].next == slots[i].next
    ensures Chain(now, at, order)
    decreases order
  {
    if order != [] {
      ChainFrame(slots, now, slots[order[0]].next, order[1..]);
    }
  }

  // ----- one element -----

  /** dec of a 16-bit word, and its sign */
  function Decremented(w: Word): Word { (w + HALF_WORD - 1) % HALF_WORD }

  predicate Positive(w: Word) { 0 < w < HALF_WORD / 2 }

  predicate Changes(b: Blink) { !Positive(Decremented(b.countdown)) }

  /** One tasklet's effect on one element: count down, and at zero change over. */
  function Tick(b: Blink): Blink {
    if !Changes(b) then b.(countdown := Decremented(b.countdown))
    else if b.status % 2 == 1 then b.(countdown := b.offLength, status := b.status - 1)
    else b.(countdown := b.onLength, status := b.status + 1)
  }

  /** What the tasklet draws for one element. */
  function Drawn(video: seq<Byte>, b: Blink): (v: seq<Byte>)
    requires b.location < SLOTS && |video| == 2 * SLOTS
    ensures |v| == |video|
  {
    if Changes(b) then video[2 * b.location := if b.status % 2 == 1 then b.offChar else b.onChar] else video
  }

  /** A new element: on, with its whole on period to go. */
  function Lit(u: Blink, next: int): Blink {
    u.(status := 1, countdown := u.onLength, next := next)
  }

  /** b with the lengths, countdown and status of a. */
  function Timed(a: Blink, b: Blink): Blink {
    b.(onLength := a.onLength, offLength := a.offLength, countdown := a.countdown, status := a.status)
  }

  // ----- the list without its pool: what the five calls are for -----

  datatype Call = Add(u: Blink) | Remove(arg: nat) | Find(arg: nat) | Sync(arg: nat) | Tasklet

  /** The elements in list order, their links forgotten, and the text page. */
  datatype Board = Board(list: seq<Blink>, video: seq<Byte>)

  ghost predicate OnScreen(b: Board) {
    |b.video| == 2 * SLOTS && forall k | 0 <= k < |b.list| :: b.list[k].location < SLOTS
  }

  /** The first element at this location, or the length of the list. */
  function First(l: seq<Blink>, loc: nat): (k: nat)
    ensures k <= |l| && (k < |l| ==> l[k].location == loc)
    ensures forall j | 0 <= j < k :: l[j].location != loc
  {
    if l == [] || l[0].location == loc then 0 else 1 + First(l[1..], loc)
  }

  function Without<T>(l: seq<T>, k: nat): seq<T>
    requires k < |l|
  {
    l[..k] + l[k + 1..]
  }

  function TickedList(l: seq<Blink>): (r: seq<Blink>)
    ensures |r| == |l| && forall k | 0 <= k < |l| :: r[k] == Tick(l[k])
  {
    seq(|l|, k requires 0 <= k < |l| => Tick(l[k]))
  }

  /** The screen after the first n elements of the list have been ticked, in list order. */
  ghost function DrawnUpTo(b: Board, n: nat): (v: seq<Byte>)
    requires OnScreen(b) && n <= |b.list|
    ensures |v| == 2 * SLOTS
  {
    if n == 0 then b.video else Drawn(DrawnUpTo(b, n - 1), b.list[n - 1])
  }

  /** A call on a plain list of at most SLOTS elements; a failing call changes nothing. The conditional move of
      sync tests a flag that the preceding test always clears, so sync always draws the off character. */
  ghost function Serve(b: Board, c: Call): (r: (Board, int))
    requires OnScreen(b)
    ensures OnScreen(r.0) && (r.1 != 0 ==> r == (b, -1))
  {
    match c
    case Add(u) =>
      if u.location >= SLOTS || |b.list| == SLOTS then (b, -1)
      else (Board([Lit(u, NULL)] + b.list, b.video[2 * u.location := u.onChar]), 0)
    case Remove(arg) =>
      var k := First(b.list, arg % HALF_WORD);
      if k == |b.list| then (b, -1) else (Board(Without(b.list, k), b.video), 0)
    case Find(arg) =>
      (b, if First(b.list, arg % HALF_WORD) == |b.list| then -1 else 0)
    case Sync(arg) =>
      var i, j := First(b.list, arg / HALF_WORD % HALF_WORD), First(b.list, arg % HALF_WORD);
      if i == |b.list| || j == |b.list| then (b, -1)
      else (Board(b.list[j := Timed(b.list[i], b.list[j])], b.video[2 * b.list[j].location := b.list[j].offChar]), 0)
    case Tasklet =>
      (Board(TickedList(b.list), DrawnUpTo(b, |b.list|)), 0)
  }

  // ----- the calls on the pool -----

  ghost predicate Within(order: seq<nat>, n: nat) {
    forall k | 0 <= k < |order| :: order[k] < n
  }

  ghost function ListOf(slots: seq<Blink>, order: seq<nat>): (l: seq<Blink>)
    requires Within(order, |slots|)
  {
    seq(|order|, k requires 0 <= k < |order| => slots[order[k]].(next := NULL))
  }

  ghost function BoardOf(p: Pool, order: seq<nat>): (b: Board)
    requires Lists(p, order)
    ensures Within(order, SLOTS) && OnScreen(b) && |b.list| == |order|
  {
    ChainBounds(p.slots, p.head, order);
    Board(ListOf(p.slots, order), p.video)
  }

  /** mp1_malloc: the first clear slot from i on */
  function FreeSlot(slots: seq<Blink>, i: nat): (r: int)
    requires i <= |slots|
    ensures r == NULL || i <= r < |slots|
    ensures r != NULL ==> slots[r].location == 0 && forall j | i <= j < r :: slots[j].location != 0
    ensures r == NULL ==> forall j | i <= j < |slots| :: slots[j].location != 0
    decreases |slots| - i
  {
    if i == |slots| then NULL else if slots[i].location == 0 then i else FreeSlot(slots, i + 1)
  }

  /** mp1_ioctl_add */
  function Added(p: Pool, u: Blink): (Pool, int)
    requires |p.slots| == SLOTS && |p.video| == 2 * SLOTS
  {
    var i := FreeSlot(p.slots, 0);
    if u.location >= SLOTS || i == NULL then (p, -1)
    else (Pool(p.slots[i := Lit(u, p.head)], i, p.video[2 * u.location := u.onChar]), 0)
  }

  /** The element at position k taken out and its slot cleared. */
  function Unlinked(p: Pool, order: seq<nat>, k: nat): Pool
    requires k < |order| && forall j | 0 <= j < |order| :: order[j] < |p.slots|
  {
    var x := order[k];
    var next := p.slots[x].next;
    if k == 0 then Pool(p.slots[x := CLEAR], next, p.video)
    else
      var before := order[k - 1];
      Pool(p.slots[before := p.slots[before].(next := next)][x := CLEAR], p.head, p.video)
  }

  /** Listed slots are those with a nonzero location, so ticking the list ticks these. */
  function TickedSlots(slots: seq<Blink>): (r: seq<Blink>)
    ensures |r| == |slots|
    ensures forall i | 0 <= i < |slots| :: r[i] == if slots[i].location == 0 then slots[i] else Tick(slots[i])
  {
    seq(|slots|, i requires 0 <= i < |slots| => if slots[i].location == 0 then slots[i] else Tick(slots[i]))
  }

  /** mp1_ioctl_sync from slot s to slot t */
  function Synced(p: Pool, s: nat, t: nat): Pool
    requires |p.video| == 2 * SLOTS && s < |p.slots| && t < |p.slots| && p.slots[t].location < SLOTS
  {
    Pool(p.slots[t := Timed(p.slots[s], p.slots[t])], p.head,
         p.video[2 * p.slots[t].location := p.slots[t].offChar])
  }

  /** A call on the pool: the new pool, the new order of its slots and the return value. */
  ghost function Perform(p: Pool, order: seq<nat>, c: Call): (Pool, seq<nat>, int)
    requires Lists(p, order)
  {
    var b := BoardOf(p, order);
    match c
    case Add(u) =>
      var (q, ret) := Added(p, u);
      (q, if ret == 0 then [FreeSlot(p.slots, 0)] + order else order, ret)
    case Remove(arg) =>
      var k := First(b.list, arg % HALF_WORD);
      if k == |order| then (p, order, -1) else (Unlinked(p, order, k), Without(order, k), 0)
    case Find(arg) =>
      (p, order, if First(b.list, arg % HALF_WORD) == |order| then -1 else 0)
    case Sync(arg) =>
      var i, j := First(b.list, arg / HALF_WORD % HALF_WORD), First(b.list, arg % HALF_WORD);
      if i == |order| || j == |order| then (p, order, -1)
      else
        assert b.list[j].location < SLOTS;
        (Synced(p, order[i], order[j]), order, 0)
    case Tasklet =>
      (Pool(TickedSlots(p.slots), p.head, DrawnUpTo(b, |order|)), order, 0)
  }

  // ----- every operation keeps the list and the pool in agreement -----

  /** A new first element. */
  lemma PushLists(p: Pool, order: seq<nat>, i: nat, b: Blink, video: seq<Byte>)
    requires Lists(p, order) && i < SLOTS && p.slots[i].location == 0
    requires 0 < b.location < SLOTS && b.next == p.head && |video| == 2 * SLOTS
    ensures Lists(Pool(p.slots[i := b], i, video), [i] + order)
  {
    assert i !in order && ([i] + order)[1..] == order;
    ChainFrame(p.slots, p.slots[i := b], p.head, order);
  }

  /** add keeps the list exactly when the location is not 0; a successful add puts the new element first. */
  lemma AddKeeps(p: Pool, order: seq<nat>, u: Blink)
    requires Lists(p, order) && Added(p, u).1 == 0
    ensures u.location != 0 <==> exists o :: Lists(Added(p, u).0, o)
    ensures u.location != 0 ==> Lists(Added(p, u).0, [FreeSlot(p.slots, 0)] + order)
  {
    var i, q := FreeSlot(p.slots, 0), Added(p, u).0;
    var b := Lit(u, p.head);
    if u.location != 0 {
      PushLists(p, order, i, b, p.video[2 * u.location := u.onChar]);
    } else {
      forall o ensures !Lists(q, o) {
        HeadLocation(q, o);
      }
    }
  }

  lemma HeadLocation(p: Pool, order: seq<nat>)
    ensures Lists(p, order) && p.head != NULL ==> 0 <= p.head < SLOTS && p.slots[p.head].location != 0
  {
    if Lists(p, order) && p.head != NULL {
      assert p.head == order[0] && order[0] in order;
    }
  }

  lemma FreeSlotStays(slots: seq<Blink>, i: int, b: Blink)
    requires FreeSlot(slots, 0) == i && i != NULL && b.location == 0
    ensures FreeSlot(slots[i := b], 0) == i
  {
    var r := FreeSlot(slots[i := b], 0);
    assert slots[i := b][i].location == 0;
    assert r != NULL ==> slots[i := b][r].location == 0;
  }

  /** After an element at location 0, whose slot still looks free, the next add reuses the slot and links
      it to itself: no finite list goes through it, and a search for an absent location never ends. */
  lemma ZeroLocationMakesCycle(p: Pool, order: seq<nat>, u: Blink, w: Blink)
    requires Lists(p, order) && u.location == 0 && w.location < SLOTS && Added(p, u).1 == 0
    ensures var (q, ret) := Added(Added(p, u).0, w);
      ret == 0 && 0 <= q.head < SLOTS && q.slots[q.head].next == q.head
  {
    hide FreeSlot;
    FreeSlotStays(p.slots, FreeSlot(p.slots, 0), Lit(u, p.head));
  }

  /** The chain past a removed element. */
  lemma {:induction false} ChainWithout(slots: seq<Blink>, at: int, order: seq<nat>, k: nat)
    requires Chain(slots, at, order) && k < |order|
    ensures forall j | 0 <= j < |order| :: order[j] < |slots|
    ensures var q := Unlinked(Pool(slots, at, []), order, k);
      |q.slots| == |slots| && Chain(q.slots, q.head, Without(order, k)) && order[k] !in Without(order, k)
    decreases order
  {
    hide Chain;
    ChainBounds(slots, at, order);
    ChainTail(slots, at, order);
    var q, first, rest := Unlinked(Pool(slots, at, []), order, k), order[0], order[1..];
    var next := slots[first].next;
    if k == 0 {
      assert Without(order, 0) == rest;
      ChainFrame(slots, q.slots, next, rest);
    } else {
      assert Without(order, k) == [first] + Without(rest, k - 1) && order[k] == rest[k - 1];
      assert forall i | i in Without(rest, k - 1) :: i in rest;
      ChainWithout(slots, next, rest, k - 1);
      if k == 1 {
        ChainTail(slots, next, rest);
        assert Without(rest, 0) == rest[1..];
        ChainFrame(slots, q.slots, slots[rest[0]].next, rest[1..]);
      }
      ChainPush(q.slots, first, Without(rest, k - 1));
    }
  }

  lemma ChainTail(slots: seq<Blink>, at: int, order: seq<nat>)
    requires Chain(slots, at, order) && order != []
    ensures at == order[0] < |slots| && order[0] !in order[1..] && Chain(slots, slots[order[0]].next, order[1..])
  {
  }

  lemma ChainPush(slots: seq<Blink>, i: nat, order: seq<nat>)
    requires i < |slots| && i !in order && Chain(slots, slots[i].next, order)
    ensures Chain(slots, i, [i] + order)
  {
    assert ([i] + order)[1..] == order;
  }

  lemma WithoutMembers(order: seq<nat>, k: nat)
    requires k < |order| && forall i, j | 0 <= i < j < |order| :: order[i] != order[j]
    ensures forall i :: i in Without(order, k) <==> i in order && i != order[k]
  {
    var o := Without(order, k);
    forall i | i in order && i != order[k] ensures i in o {
      var j :| 0 <= j < |order| && order[j] == i;
      assert i == o[if j < k then j else j - 1];
    }
  }

  lemma RemoveKeeps(p: Pool, order: seq<nat>, k: nat)
    requires Lists(p, order) && k < |order|
    ensures forall j | 0 <= j < |order| :: order[j] < SLOTS
    ensures Lists(Unlinked(p, order, k), Without(order, k))
  {
    ChainBounds(p.slots, p.head, order);
    ChainWithout(p.slots, p.head, order, k);
    WithoutMembers(order, k);
  }

  lemma TickKeeps(p: Pool, order: seq<nat>, video: seq<Byte>)
    requires Lists(p, order) && |video| == 2 * SLOTS
    ensures Lists(Pool(TickedSlots(p.slots), p.head, video), order)
  {
    ChainFrame(p.slots, TickedSlots(p.slots), p.head, order);
  }

  lemma SyncKeeps(p: Pool, order: seq<nat>, s: nat, t: nat)
    requires Lists(p, order) && s in order && t in order
    ensures s < SLOTS && t < SLOTS && 0 < p.slots[t].location < SLOTS && Lists(Synced(p, s, t), order)
  {
    ChainBounds(p.slots, p.head, order);
    ChainFrame(p.slots, Synced(p, s, t).slots, p.head, order);
  }

  /** Removing a location just added restores the list and the pool exactly (only the screen keeps the
      character drawn). */
  lemma AddThenRemove(p: Pool, order: seq<nat>, u: Blink)
    requires Lists(p, order) && 0 < u.location && Added(p, u).1 == 0
    ensures var q, o := Added(p, u).0, [FreeSlot(p.slots, 0)] + order;
      && Lists(q, o) && Within(o, SLOTS) && First(ListOf(q.slots, o), u.location) == 0
      && Without(o, 0) == order && Unlinked(q, o, 0) == p.(video := q.video)
  {
    AddKeeps(p, order, u);
    var i := FreeSlot(p.slots, 0);
    ChainBounds(Added(p, u).0.slots, Added(p, u).0.head, [i] + order);
    assert Added(p, u).0.slots[i := CLEAR] == p.slots;
  }

  /** The pool is full exactly when the list holds SLOTS elements. */
  lemma PoolFull(p: Pool, order: seq<nat>)
    requires Lists(p, order)
    ensures FreeSlot(p.slots, 0) == NULL <==> |order| == SLOTS
    ensures |order| <= SLOTS
  {
    ChainBounds(p.slots, p.head, order);
    Subset(Members(order), Below(SLOTS));
  }

  ghost function Below(n: nat): (r: set<nat>)
    ensures |r| == n && forall i: nat :: i in r <==> i < n
  {
    if n == 0 then {} else Below(n - 1) + {n - 1}
  }

  ghost function Members(order: seq<nat>): (r: set<nat>)
    ensures forall i :: i in r <==> i in order
    ensures (forall j, k | 0 <= j < k < |order| :: order[j] != order[k]) ==> |r| == |order|
  {
    if order == [] then {}
    else
      assert order == [order[0]] + order[1..];
      {order[0]} + Members(order[1..])
  }

  lemma Subset(a: set<nat>, b: set<nat>)
    requires a <= b
    ensures |a| <= |b| && (|a| == |b| <==> a == b)
  {
    var rest := b - a;
    assert b == a + rest;
  }

  /** Every call keeps the pool and the list in agreement, answers as the plain list does, and changes it alike. */
  lemma PerformRefines(p: Pool, order: seq<nat>, c: Call)
    requires Lists(p, order) && (c.Add? ==> c.u.location != 0)
    ensures var (q, o, ret) := Perform(p, order, c);
      Lists(q, o) && (BoardOf(q, o), ret) == Serve(BoardOf(p, order), c)
  {
    hide Lists, Chain, Covers, First, FreeSlot, DrawnUpTo, Changes;
    match c
    case Add(u) => AddRefines(p, order, u);
    case Remove(arg) =>
      var k := First(BoardOf(p, order).list, arg % HALF_WORD);
      if k < |order| { RemoveRefines(p, order, k); }
    case Find(arg) =>
    case Sync(arg) =>
      var l := BoardOf(p, order).list;
      var i, j := First(l, arg / HALF_WORD % HALF_WORD), First(l, arg % HALF_WORD);
      if i < |order| && j < |order| { SyncRefines(p, order, i, j); }
    case Tasklet =>
      TickRefines(p, order, DrawnUpTo(BoardOf(p, order), |order|));
  }

  lemma AddRefines(p: Pool, order: seq<nat>, u: Blink)
    requires Lists(p, order) && u.location != 0
    ensures var (q, o, ret) := Perform(p, order, Add(u));
      Lists(q, o) && (BoardOf(q, o), ret) == Serve(BoardOf(p, order), Add(u))
  {
    PoolFull(p, order);
    var (q, ret) := Added(p, u);
    if ret == 0 {
      AddKeeps(p, order, u);
      var i := FreeSlot(p.slots, 0);
      assert i !in order;
      assert BoardOf(q, [i] + order).list == [Lit(u, NULL)] + BoardOf(p, order).list;
    }
  }

  lemma RemoveRefines(p: Pool, order: seq<nat>, k: nat)
    requires Lists(p, order) && k < |order|
    ensures Within(order, SLOTS) && Lists(Unlinked(p, order, k), Without(order, k))
    ensures BoardOf(Unlinked(p, order, k), Without(order, k)).list == Without(BoardOf(p, order).list, k)
  {
    hide Chain, Covers;
    ChainBounds(p.slots, p.head, order);
    RemoveKeeps(p, order, k);
    var q, o := Unlinked(p, order, k), Without(order, k);
    forall j | 0 <= j < |o| ensures q.slots[o[j]].(next := NULL) == p.slots[o[j]].(next := NULL) {
      assert o[j] == order[if j < k then j else j + 1];
    }
  }

  lemma SyncRefines(p: Pool, order: seq<nat>, i: nat, j: nat)
    requires Lists(p, order) && i < |order| && j < |order|
    ensures Within(order, SLOTS) && p.slots[order[j]].location < SLOTS
    ensures var q := Synced(p, order[i], order[j]);
      && Lists(q, order)
      && var l := BoardOf(p, order).list; BoardOf(q, order).list == l[j := Timed(l[i], l[j])]
  {
    ChainBounds(p.slots, p.head, order);
    SyncKeeps(p, order, order[i], order[j]);
  }

  /** A tasklet's effect on an element does not depend on its link. */
  lemma LinkIgnored(b: Blink, video: seq<Byte>)
    ensures Tick(b.(next := NULL)) == Tick(b).(next := NULL) && Tick(b).next == b.next
    ensures b.location < SLOTS && |video| == 2 * SLOTS ==> Drawn(video, b.(next := NULL)) == Drawn(video, b)
  {
  }

  lemma TickRefines(p: Pool, order: seq<nat>, video: seq<Byte>)
    requires Lists(p, order) && |video| == 2 * SLOTS
    ensures var q := Pool(TickedSlots(p.slots), p.head, video);
      Lists(q, order) && BoardOf(q, order) == Board(TickedList(BoardOf(p, order).list), video)
  {
    hide Changes;
    ChainBounds(p.slots, p.head, order);
    TickKeeps(p, order, video);
    var q := Pool(TickedSlots(p.slots), p.head, video);
    assert forall k | 0 <= k < |order| :: order[k] in order;
    forall k | 0 <= k < |order| ensures BoardOf(q, order).list[k] == Tick(BoardOf(p, order).list[k]) {
      LinkIgnored(p.slots[order[k]], []);
    }
    assert BoardOf(q, order).list == TickedList(BoardOf(p, order).list);
  }

  ghost function PerformAll(p: Pool, order: seq<nat>, calls: seq<Call>): (r: (Pool, seq<nat>))
    requires Lists(p, order) && forall c | c in calls :: c.Add? ==> c.u.location != 0
    ensures Lists(r.0, r.1)
    decreases calls
  {
    if calls == [] then (p, order)
    else
      PerformRefines(p, order, calls[0]);
      var (q, o, _) := Perform(p, order, calls[0]);
      PerformAll(q, o, calls[1..])
  }

  ghost function ServeAll(b: Board, calls: seq<Call>): (r: Board)
    requires OnScreen(b)
    ensures OnScreen(r)
    decreases calls
  {
    if calls == [] then b else ServeAll(Serve(b, calls[0]).0, calls[1..])
  }

  /** Any run of calls on the pool is the same run on the plain list. */
  lemma {:induction false} RunRefines(p: Pool, order: seq<nat>, calls: seq<Call>)
    requires Lists(p, order) && forall c | c in calls :: c.Add? ==> c.u.location != 0
    ensures var (q, o) := PerformAll(p, order, calls);
      Lists(q, o) && BoardOf(q, o) == ServeAll(BoardOf(p, order), calls)
    decreases calls
  {
    hide Lists, Perform, Serve, BoardOf;
    if calls != [] {
      PerformRefines(p, order, calls[0]);
      var (q, o, _) := Perform(p, order, calls[0]);
      RunRefines(q, o, calls[1..]);
    }
  }

  // ----- timing -----

  /** What find reports. */
  function Lookup(l: seq<Blink>, loc: nat): Option<Blink> {
    var k := First(l, loc);
    if k < |l| then Some(l[k]) else None
  }

  predicate Touches(c: Call, loc: nat) {
    match c
    case Add(u) => u.location == loc
    case Remove(arg) => arg % HALF_WORD == loc
    case Find(arg) => false
    case Sync(arg) => arg % HALF_WORD == loc
    case Tasklet => false
  }

  function Ticks(b: Blink, n: nat): Blink {
    if n == 0 then b else Tick(Ticks(b, n - 1))
  }

  function Tasklets(calls: seq<Call>): nat {
    if calls == [] then 0 else (if calls[0].Tasklet? then 1 else 0) + Tasklets(calls[1..])
  }

  /** A call that does not touch a location leaves what is found there, except that a tasklet ticks it. */
  lemma ServeElsewhere(b: Board, c: Call, loc: nat)
    requires OnScreen(b) && !Touches(c, loc)
    ensures var was, now := Lookup(b.list, loc), Lookup(Serve(b, c).0.list, loc);
      now == if c.Tasklet? && was.Some? then Some(Tick(was.value)) else was
  {
    hide First, DrawnUpTo, Changes;
    var l, r := b.list, Serve(b, c).0.list;
    match c
    case Add(u) =>
      if |r| != |l| { FirstIs(r, loc, First(l, loc) + 1); }
    case Remove(arg) =>
      if |r| != |l| { FirstWithout(l, First(l, arg % HALF_WORD), loc); }
    case Find(arg) =>
    case Sync(arg) =>
      FirstIs(r, loc, First(l, loc));
    case Tasklet =>
      FirstIs(r, loc, First(l, loc));
  }

  lemma FirstIs(l: seq<Blink>, loc: nat, k: nat)
    requires k <= |l| && (k < |l| ==> l[k].location == loc) && forall j | 0 <= j < k :: l[j].location != loc
    ensures First(l, loc) == k
  {
    hide First;
  }

  lemma FirstWithout(l: seq<Blink>, x: nat, loc: nat)
    requires x < |l| && l[x].location != loc
    ensures Lookup(Without(l, x), loc) == Lookup(l, loc)
  {
    hide First;
    var k, r := First(l, loc), Without(l, x);
    assert forall j | 0 <= j < |r| :: r[j] == l[if j < x then j else j + 1];
    FirstIs(r, loc, if k < x then k else k - 1);
  }

  lemma {:induction false} TicksAfterTick(b: Blink, n: nat)
    ensures Ticks(Tick(b), n) == Ticks(b, n + 1)
  {
    hide Tick;
    if n > 0 { TicksAfterTick(b, n - 1); }
  }

  /** Over any run of calls that never touch a location, the element found there is ticked once for each tasklet. */
  lemma {:induction false} RunElsewhere(b: Board, calls: seq<Call>, loc: nat)
    requires OnScreen(b) && Lookup(b.list, loc).Some? && forall c | c in calls :: !Touches(c, loc)
    ensures Lookup(ServeAll(b, calls).list, loc) == Some(Ticks(Lookup(b.list, loc).value, Tasklets(calls)))
    decreases calls
  {
    hide Serve, Tick, Lookup, Touches;
    if calls != [] {
      ServeElsewhere(b, calls[0], loc);
      RunElsewhere(Serve(b, calls[0]).0, calls[1..], loc);
      if calls[0].Tasklet? { TicksAfterTick(Lookup(b.list, loc).value, Tasklets(calls[1..])); }
    }
  }

  /** How many tasklets a period of the given length lasts: lengths that are 0 or over 2^15 last one. */
  function Lasting(length: Word): nat {
    if 1 <= length <= HALF_WORD / 2 then length else 1
  }

  function Cycle(u: Blink): (c: nat)
    ensures c >= 2
  {
    Lasting(u.onLength) + Lasting(u.offLength)
  }

  /** The state of an element m tasklets into its cycle. */
  function Phase(u: Blink, m: nat): Blink
    requires m < Cycle(u)
  {
    var on := Lasting(u.onLength);
    if m < on then u.(status := 1, countdown := u.onLength - m)
    else u.(status := 0, countdown := u.offLength - (m - on))
  }

  lemma PhaseStep(u: Blink, m: nat)
    requires m < Cycle(u)
    ensures Tick(Phase(u, m)) == Phase(u, if m + 1 == Cycle(u) then 0 else m + 1)
  {
  }

  lemma PhaseStart(u: Blink)
    ensures Phase(u, 0).(next := NULL) == Lit(u, NULL)
  {
  }

  lemma PhaseLink(u: Blink, m: nat)
    requires m < Cycle(u)
    ensures Cycle(u.(next := NULL)) == Cycle(u) && Phase(u.(next := NULL), m) == Phase(u, m).(next := NULL)
  {
  }

  /** Where in its cycle an element is after n tasklets. */
  function Position(u: Blink, n: nat): (m: nat)
    ensures m < Cycle(u)
  {
    n % Cycle(u)
  }

  lemma PositionMoves(u: Blink, n: nat)
    ensures Position(u, 0) == 0 && Position(u.(next := NULL), n) == Position(u, n)
    ensures Position(u, n + 1) == if Position(u, n) + 1 == Cycle(u) then 0 else Position(u, n) + 1
  {
    Division.NextRemainder(n, Cycle(u));
  }

  /** Blinking is periodic, for every pair of lengths. */
  lemma {:induction false} Periodic(u: Blink, n: nat)
    ensures Ticks(Lit(u, NULL), n) == Phase(u, Position(u, n)).(next := NULL)
  {
    hide Tick, Phase, Cycle, Lit, Position;
    if n == 0 {
      PositionMoves(u, 0);
      PhaseStart(u);
    } else {
      var m := Position(u, n - 1);
      Periodic(u, n - 1);
      PositionMoves(u, n - 1);
      PhaseLink(u, m);
      PhaseLink(u, Position(u, n));
      PhaseStep(u.(next := NULL), m);
    }
  }

  /** The timing of a blinking character: whatever other characters are added, removed, found or synced, its status
      and countdown depend only on the tasklets since it was added, taken modulo its cycle. */
  lemma BlinkTiming(b: Board, u: Blink, calls: seq<Call>)
    requires OnScreen(b) && Serve(b, Add(u)).1 == 0 && forall c | c in calls :: !Touches(c, u.location)
    ensures Lookup(ServeAll(Serve(b, Add(u)).0, calls).list, u.location)
         == Some(Phase(u, Tasklets(calls) % Cycle(u)).(next := NULL))
  {
    hide ServeAll, Touches, Phase, Ticks;
    var now := Serve(b, Add(u)).0;
    assert Lookup(now.list, u.location) == Some(Lit(u, NULL));
    RunElsewhere(now, calls, u.location);
    Periodic(u, Tasklets(calls));
  }

  predicate SameTiming(a: Blink, b: Blink) {
    a.onLength == b.onLength && a.offLength == b.offLength && a.countdown == b.countdown && a.status == b.status
  }

  lemma {:induction false} TicksSame(a: Blink, b: Blink, n: nat)
    requires SameTiming(a, b)
    ensures SameTiming(Ticks(a, n), Ticks(b, n))
  {
    if n > 0 { TicksSame(a, b, n - 1); }
  }

  /** After a sync the two characters blink together for as long as no call touches either. */
  lemma SyncLasts(b: Board, arg: nat, calls: seq<Call>)
    requires OnScreen(b) && Serve(b, Sync(arg)).1 == 0
    requires forall c | c in calls :: !Touches(c, arg / HALF_WORD % HALF_WORD) && !Touches(c, arg % HALF_WORD)
    ensures var l := ServeAll(Serve(b, Sync(arg)).0, calls).list;
      var source, target := Lookup(l, arg / HALF_WORD % HALF_WORD), Lookup(l, arg % HALF_WORD);
      source.Some? && target.Some? && SameTiming(source.value, target.value)
  {
    hide ServeAll, Touches, First;
    var s, t := arg / HALF_WORD % HALF_WORD, arg % HALF_WORD;
    var l, now := b.list, Serve(b, Sync(arg)).0;
    var i, j := First(l, s), First(l, t);
    assert forall k | 0 <= k < |l| :: now.list[k].location == l[k].location;
    assert First(now.list, s) == i && First(now.list, t) == j;
    RunElsewhere(now, calls, s);
    RunElsewhere(now, calls, t);
    TicksSame(now.list[i], now.list[j], Tasklets(calls));
  }

  // ----- the program -----

  /** The slots after the first n elements of the list have been ticked. */
  ghost function TickedUpTo(slots: seq<Blink>, order: seq<nat>, n: nat): (r: seq<Blink>)
    requires Within(order, |slots|) && n <= |order|
    ensures |r| == |slots|
  {
    if n == 0 then slots
    else TickedUpTo(slots, order, n - 1)[order[n - 1] := Tick(slots[order[n - 1]])]
  }

  lemma {:induction false} TickedAt(slots: seq<Blink>, order: seq<nat>, n: nat)
    requires Within(order, |slots|) && n <= |order|
    requires forall j, k | 0 <= j < k < |order| :: order[j] != order[k]
    ensures forall k | n <= k < |order| :: TickedUpTo(slots, order, n)[order[k]] == slots[order[k]]
    ensures forall k | 0 <= k < n :: TickedUpTo(slots, order, n)[order[k]] == Tick(slots[order[k]])
    ensures forall i | 0 <= i < |slots| && i !in order :: TickedUpTo(slots, order, n)[i] == slots[i]
  {
    hide Tick;
    if n > 0 { TickedAt(slots, order, n - 1); }
  }

  lemma AllTicked(p: Pool, order: seq<nat>)
    requires Lists(p, order)
    ensures Within(order, SLOTS) && TickedUpTo(p.slots, order, |order|) == TickedSlots(p.slots)
  {
    hide Tick, Chain, TickedUpTo;
    ChainBounds(p.slots, p.head, order);
    TickedAt(p.slots, order, |order|);
    forall i | 0 <= i < SLOTS ensures TickedUpTo(p.slots, order, |order|)[i] == TickedSlots(p.slots)[i] {
      if i in order {
        var k :| 0 <= k < |order| && order[k] == i;
      }
    }
  }

  class BlinkPool {
    const slots: array<Blink>
    const video: array<Byte>
    var head: int
    ghost var order: seq<nat>

    ghost predicate Sizes()
      reads this
    {
      slots.Length == SLOTS && video.Length == 2 * SLOTS
    }

    ghost function Now(): Pool
      reads this, slots, video
    {
      Pool(slots[..], head, video[..])
    }

    ghost predicate Valid()
      reads this, slots, video
    {
      Sizes() && Lists(Now(), order)
    }

    /** The static array and the null head */
    constructor (page: array<Byte>)
      requires page.Length == 2 * SLOTS
      ensures Valid() && video == page && fresh(slots) && order == []
      ensures Now() == Pool(seq(SLOTS, _ => CLEAR), NULL, page[..])
    {
      slots := new Blink[SLOTS](_ => CLEAR);
      head := NULL;
      video := page;
      order := [];
    }

    /** mp1_malloc */
    method Malloc() returns (i: int)
      requires Sizes()
      ensures i == FreeSlot(slots[..], 0)
    {
      i := 0;
      while i < SLOTS
        invariant 0 <= i <= SLOTS
        invariant forall j | 0 <= j < i :: slots[j].location != 0
      {
        if slots[i].location == 0 { return; }
        i := i + 1;
      }
      i := NULL;
    }

    /** mp1_free */
    method Free(i: nat)
      requires i < slots.Length
      modifies slots
      ensures slots[..] == old(slots[..])[i := CLEAR]
    {
      slots[i] := CLEAR;
    }

    /** mp1_poke */
    method Poke(offset: nat, c: Byte)
      requires offset < video.Length
      modifies video
      ensures video[..] == old(video[..])[offset := c]
    {
      video[offset] := c;
    }

    /** mp1_ioctl_add of a structure copied from the caller */
    method Add(user: Blink) returns (ret: int)
      requires Valid()
      modifies this, slots, video
      ensures (Now(), order, ret) == Perform(old(Now()), old(order), Call.Add(user))
      ensures user.location != 0 ==> Valid()
    {
      hide Lists;
      ghost var p, o := Now(), order;
      if user.location != 0 { PerformRefines(p, o, Call.Add(user)); }
      if user.location >= SLOTS { return -1; }
      var u := user.(status := 1, countdown := user.onLength);
      var i := Malloc();
      if i == NULL { return -1; }
      slots[i] := u;
      slots[i] := slots[i].(next := head);
      head := i;
      order := [i] + order;
      Poke(2 * slots[i].location, slots[i].onChar);
      ret := 0;
      assert slots[..] == p.slots[i := Lit(user, p.head)];
    }

    /** mp1_find_helper: only the low 16 bits of the argument are compared */
    method FindHelper(arg: nat) returns (x: int)
      requires Valid()
      ensures x == LinkTo(order, First(BoardOf(Now(), order).list, arg % HALF_WORD))
    {
      hide Chain, Covers;
      ghost var all, l := slots[..], BoardOf(Now(), order).list;
      ChainBounds(all, head, order);
      x := head;
      ghost var k := 0;
      while x != NULL
        invariant 0 <= k <= |order| && x == LinkTo(order, k)
        invariant forall j | 0 <= j < k :: l[j].location != arg % HALF_WORD
        decreases |order| - k
      {
        assert l[k].location == slots[x].location;
        if slots[x].location == arg % HALF_WORD { return; }
        ChainNext(all, head, order, k);
        x := slots[x].next;
        k := k + 1;
      }
    }

    /** mp1_ioctl_find: the element found, or the caller's own structure */
    method Find(user: Blink) returns (found: Blink, ret: int)
      requires Valid()
      ensures (Now(), order, ret) == Perform(Now(), order, Call.Find(user.location))
      ensures var l := Lookup(BoardOf(Now(), order).list, user.location);
        if ret == 0 then l == Some(found.(next := NULL)) else l == None && found == user
    {
      var x := FindHelper(user.location);
      if x == NULL { return user, -1; }
      found, ret := slots[x], 0;
    }

    /** mp1_ioctl_remove: the second walk stops at the link that leads to the element */
    method Remove(arg: nat) returns (ret: int)
      requires Valid()
      modifies this, slots
      ensures (Now(), order, ret) == Perform(old(Now()), old(order), Call.Remove(arg))
      ensures Valid()
    {
      hide Chain, Covers, First;
      var x := FindHelper(arg);
      if x == NULL { return -1; }
      ghost var k := First(BoardOf(Now(), order).list, arg % HALF_WORD);
      ChainBounds(slots[..], head, order);
      ghost var p, o := Now(), order;
      RemoveKeeps(p, o, k);
      var before, at := NULL, head;
      ghost var n := 0;
      while at != x
        invariant Now() == p && order == o && 0 <= n <= k
        invariant at == order[n] && before == if n == 0 then NULL else order[n - 1]
        decreases k - n
      {
        ChainNext(slots[..], head, order, n);
        before, at := at, slots[at].next;
        n := n + 1;
      }
      if before == NULL {
        head := slots[x].next;
      } else {
        slots[before] := slots[before].(next := slots[x].next);
      }
      Free(x);
      order := Without(order, k);
      ret := 0;
      assert Now() == Unlinked(p, o, k);
    }

    /** mp1_ioctl_sync: source in the high half of the argument, target in the low half */
    method Sync(arg: nat) returns (ret: int)
      requires Valid()
      modifies slots, video
      ensures (Now(), order, ret) == Perform(old(Now()), old(order), Call.Sync(arg))
      ensures Valid()
    {
      hide Chain, Covers, First;
      var s := FindHelper(arg / HALF_WORD);
      if s == NULL { return -1; }
      var t := FindHelper(arg % HALF_WORD);
      if t == NULL { return -1; }
      ghost var p := Now();
      assert arg % HALF_WORD % HALF_WORD == arg % HALF_WORD;
      SyncKeeps(p, order, s, t);
      slots[t] := slots[t].(onLength := slots[s].onLength);
      slots[t] := slots[t].(offLength := slots[s].offLength);
      slots[t] := slots[t].(countdown := slots[s].countdown);
      slots[t] := slots[t].(status := slots[s].status);
      Poke(2 * slots[t].location, slots[t].offChar);
      ret := 0;
      assert slots[..] == p.slots[t := Timed(p.slots[s], p.slots[t])];
    }

    /** mp1_rtc_tasklet */
    method Tasklet()
      requires Valid()
      modifies slots, video
      ensures (Now(), order, 0) == Perform(old(Now()), old(order), Call.Tasklet)
      ensures Valid()
    {
      hide Drawn, Tick, Chain, Covers;
      ghost var p := Now();
      ghost var b := BoardOf(p, order);
      ChainBounds(slots[..], head, order);
      TickKeeps(p, order, DrawnUpTo(b, |order|));
      var x := head;
      ghost var k := 0;
      while x != NULL
        invariant 0 <= k <= |order| && x == LinkTo(order, k)
        invariant slots[..] == TickedUpTo(p.slots, order, k) && video[..] == DrawnUpTo(b, k)
        decreases |order| - k
      {
        TickedAt(p.slots, order, k);
        assert slots[..][x] == p.slots[x] && b.list[k] == slots[x].(next := NULL);
        LinkIgnored(slots[x], video[..]);
        TickOne(x);
        ChainNext(p.slots, p.head, order, k);
        assert slots[..][x] == Tick(p.slots[order[k]]);
        x := slots[x].next;
        k := k + 1;
      }
      AllTicked(p, order);
    }

    /** One round of the tasklet's loop */
    method TickOne(x: nat)
      requires Sizes() && x < SLOTS && slots[x].location < SLOTS
      modifies slots, video
      ensures slots[..] == old(slots[..])[x := Tick(old(slots[x]))]
      ensures video[..] == Drawn(old(video[..]), old(slots[x]))
    {
      slots[x] := slots[x].(countdown := Decremented(slots[x].countdown));
      if Positive(slots[x].countdown) { return; }
      var length: Word;
      if slots[x].status % 2 == 1 {
        Poke(2 * slots[x].location, slots[x].offChar);
        length := slots[x].offLength;
      } else {
        Poke(2 * slots[x].location, slots[x].onChar);
        length := slots[x].onLength;
      }
      slots[x] := slots[x].(countdown := length,
        status := if slots[x].status % 2 == 1 then slots[x].status - 1 else slots[x].status + 1);
    }
  }
}
