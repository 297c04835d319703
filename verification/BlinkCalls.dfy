/** What each call of fish/blink.S answers and does, element by element and byte by byte. */
module BlinkCalls {
  import opened Common
  import opened CString
  import opened BlinkList

  /** k is the first position with this location. */
  ghost predicate FirstAt(l: seq<Blink>, loc: nat, k: nat) {
    k < |l| && l[k].location == loc && forall j | 0 <= j < k :: l[j].location != loc
  }

  ghost predicate Absent(l: seq<Blink>, loc: nat) {
    forall j | 0 <= j < |l| :: l[j].location != loc
  }

  lemma FirstAtIs(l: seq<Blink>, loc: nat, k: nat)
    ensures FirstAt(l, loc, k) ==> First(l, loc) == k
    ensures Absent(l, loc) <==> First(l, loc) == |l|
  {
    hide First;
  }

  /** add puts a new element first, on and with its whole on period to go, and draws its on character; it fails
      exactly for a location off the screen or a full pool. */
  lemma AddServed(b: Board, u: Blink)
    requires OnScreen(b) && |b.list| <= 2000
    ensures var (r, ret) := Serve(b, Add(u));
      && (ret == 0 <==> u.location < 2000 && |b.list| < 2000)
      && (ret != 0 ==> ret == -1 && r == b)
      && (ret == 0 ==>
           && |r.list| == |b.list| + 1 && (forall j | 0 <= j < |b.list| :: r.list[j + 1] == b.list[j])
           && var e := r.list[0];
           && e.location == u.location && e.onChar == u.onChar && e.offChar == u.offChar
           && e.onLength == u.onLength && e.offLength == u.offLength && e.countdown == u.onLength && e.status == 1
           && |r.video| == 4000
           && forall i | 0 <= i < 4000 :: r.video[i] == if i == 2 * u.location then u.onChar else b.video[i])
  {
  }

  /** remove takes the first element at the location out and leaves the others in order; the screen stays. */
  lemma RemoveServed(b: Board, arg: nat, k: nat)
    requires OnScreen(b) && FirstAt(b.list, arg % 65536, k)
    ensures var (r, ret) := Serve(b, Remove(arg));
      && ret == 0 && |r.list| == |b.list| - 1 && r.video == b.video
      && (forall j | 0 <= j < k :: r.list[j] == b.list[j])
      && (forall j | k <= j < |r.list| :: r.list[j] == b.list[j + 1])
  {
    hide First;
    FirstAtIs(b.list, arg % 65536, k);
  }

  /** A location used once is no longer found after its removal. */
  lemma RemoveGone(b: Board, arg: nat, k: nat)
    requires OnScreen(b) && FirstAt(b.list, arg % 65536, k)
    requires forall j | k < j < |b.list| :: b.list[j].location != arg % 65536
    ensures Lookup(Serve(b, Remove(arg)).0.list, arg % 65536) == None
  {
    hide First;
    RemoveServed(b, arg, k);
    var l := Serve(b, Remove(arg)).0.list;
    forall j | 0 <= j < |l| ensures l[j].location != arg % 65536 {
      assert l[j] == b.list[if j < k then j else j + 1];
    }
    FirstAtIs(l, arg % 65536, 0);
  }

  /** find changes nothing and answers whether there is an element. */
  lemma FindServed(b: Board, arg: nat)
    requires OnScreen(b)
    ensures var (r, ret) := Serve(b, Find(arg));
      r == b && ret == if Absent(b.list, arg % 65536) then -1 else 0
  {
    hide First;
    FirstAtIs(b.list, arg % 65536, 0);
  }

  /** sync gives the target the source's lengths, countdown and status, keeps its characters and place, changes no other
      element, and draws one byte. */
  lemma SyncServed(b: Board, arg: nat, i: nat, j: nat)
    requires OnScreen(b) && FirstAt(b.list, arg / 65536 % 65536, i) && FirstAt(b.list, arg % 65536, j)
    ensures var (r, ret) := Serve(b, Sync(arg));
      && ret == 0 && |r.list| == |b.list| && |r.video| == 4000
      && (forall k | 0 <= k < |r.list| && k != j :: r.list[k] == b.list[k])
      && (var s, t, e := b.list[i], b.list[j], r.list[j];
          && e.location == t.location && e.onChar == t.onChar && e.offChar == t.offChar
          && e.onLength == s.onLength && e.offLength == s.offLength
          && e.countdown == s.countdown && e.status == s.status)
      && forall p | 0 <= p < 4000 ::
           r.video[p] == if p == 2 * b.list[j].location then b.list[j].offChar else b.video[p]
  {
    hide First;
    FirstAtIs(b.list, arg / 65536 % 65536, i);
    FirstAtIs(b.list, arg % 65536, j);
  }

  /** remove and sync fail, and change nothing, exactly when an element they need is absent. */
  lemma FailsWhenAbsent(b: Board, arg: nat)
    requires OnScreen(b)
    ensures Absent(b.list, arg % 65536) ==> Serve(b, Remove(arg)) == (b, -1)
    ensures Absent(b.list, arg % 65536) || Absent(b.list, arg / 65536 % 65536) ==> Serve(b, Sync(arg)) == (b, -1)
    ensures !Absent(b.list, arg % 65536) ==> exists k: nat :: FirstAt(b.list, arg % 65536, k)
  {
    hide First;
    FirstAtIs(b.list, arg % 65536, 0);
    FirstAtIs(b.list, arg / 65536 % 65536, 0);
    if !Absent(b.list, arg % 65536) { assert FirstAt(b.list, arg % 65536, First(b.list, arg % 65536)); }
  }

  /** One tasklet counts every element down by one as a signed 16-bit word; one that is then not positive changes
      over and starts its other period. Nothing else of it changes. */
  lemma TaskletServed(b: Board, k: nat)
    requires OnScreen(b) && k < |b.list|
    ensures var (r, ret) := Serve(b, Tasklet);
      && ret == 0 && |r.list| == |b.list|
      && var e, was := r.list[k], b.list[k]; var left := (was.countdown - 1) % 65536;
      && e.location == was.location && e.onChar == was.onChar && e.offChar == was.offChar
      && e.onLength == was.onLength && e.offLength == was.offLength
      && (if 0 < left < 32768 then e.countdown == left && e.status == was.status
          else if was.status % 2 == 1 then e.countdown == was.offLength && e.status == was.status - 1
          else e.countdown == was.onLength && e.status == was.status + 1)
  {
  }

  /** It writes only the text bytes at the elements' locations. */
  lemma TaskletDraws(b: Board, p: nat)
    requires OnScreen(b) && p < 4000 && forall k | 0 <= k < |b.list| :: p != 2 * b.list[k].location
    ensures |Serve(b, Tasklet).0.video| == 4000 && Serve(b, Tasklet).0.video[p] == b.video[p]
  {
    DrawnNowhere(b, |b.list|, p);
  }

  lemma {:induction false} DrawnNowhere(b: Board, n: nat, p: nat)
    requires OnScreen(b) && n <= |b.list| && p < 4000 && forall k | 0 <= k < |b.list| :: p != 2 * b.list[k].location
    ensures DrawnUpTo(b, n)[p] == b.video[p]
  {
    if n > 0 { DrawnNowhere(b, n - 1, p); }
  }

  // ----- on the pool -----

  lemma PerformedAdd(p: Pool, order: seq<nat>, u: Blink)
    requires Lists(p, order) && Perform(p, order, Add(u)).2 == 0
    ensures Added(p, u).1 == 0 && Perform(p, order, Add(u)) == (Added(p, u).0, [FreeSlot(p.slots, 0)] + order, 0)
  {
    hide Lists, FreeSlot, First;
  }

  lemma PerformedRemove(p: Pool, order: seq<nat>, arg: nat, k: nat)
    requires Lists(p, order) && Within(order, |p.slots|)
    requires First(ListOf(p.slots, order), arg % HALF_WORD) == k < |order|
    ensures Perform(p, order, Remove(arg)) == (Unlinked(p, order, k), Without(order, k), 0)
  {
    hide Lists, First, Unlinked, Without;
  }

  /** Removing the location just added answers 0 and gives back the slots, the head and the list as they were. */
  lemma AddThenRemoveCalls(p: Pool, order: seq<nat>, u: Blink)
    requires Lists(p, order) && u.location != 0 && Perform(p, order, Add(u)).2 == 0
    ensures var (q, o, _) := Perform(p, order, Add(u));
      && Lists(q, o)
      && var (r, back, ret) := Perform(q, o, Remove(u.location));
      ret == 0 && r.slots == p.slots && r.head == p.head && back == order
  {
    hide First, Chain, Covers, FreeSlot, Lit, Perform, Unlinked;
    PerformedAdd(p, order, u);
    AddThenRemove(p, order, u);
    var q, o := Added(p, u).0, [FreeSlot(p.slots, 0)] + order;
    PerformedRemove(q, o, u.location, 0);
    assert Without(o, 0) == order;
  }

  /** A successful remove clears exactly the slot of the first element at the location, and no other slot changes but
      for the link that led to it. */
  lemma RemovePerformed(p: Pool, order: seq<nat>, arg: nat)
    requires Lists(p, order) && Perform(p, order, Remove(arg)).2 == 0
    ensures var (q, o, _) := Perform(p, order, Remove(arg));
      exists k: nat ::
        && k < |order| && order[k] < 2000 && |q.slots| == 2000 && |o| == |order| - 1
        && p.slots[order[k]].location == arg % 65536
        && q.slots[order[k]].location == 0 && order[k] !in o
        && (forall i | 0 <= i < 2000 && i != order[k] && (k == 0 || i != order[k - 1]) :: q.slots[i] == p.slots[i])
  {
    hide First, Chain;
    var l := BoardOf(p, order).list;
    var k := First(l, arg % 65536);
    RemoveKeeps(p, order, k);
    ChainBounds(p.slots, p.head, order);
    WithoutMembers(order, k);
    assert l[k].location == p.slots[order[k]].location;
  }
}
