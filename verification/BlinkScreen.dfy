/** What the blinking characters of fish/blink.S look like: the text bytes on the screen against the elements'
    states. */
module BlinkScreen {
  import opened Common
  import opened CString
  import opened BlinkList

  /** The character that an element's state calls for. */
  function Due(b: Blink): Byte {
    if b.status % 2 == 1 then b.onChar else b.offChar
  }

  /** The k-th element's character is on the screen. */
  ghost predicate Right(b: Board, k: nat)
    requires OnScreen(b) && k < |b.list|
  {
    b.video[2 * b.list[k].location] == Due(b.list[k])
  }

  ghost predicate Distinct(l: seq<Blink>) {
    forall j, k | 0 <= j < k < |l| :: l[j].location != l[k].location
  }

  /** No location is used twice, and every element's character is on the screen. */
  ghost predicate Agreeing(b: Board)
    requires OnScreen(b)
  {
    Distinct(b.list) && forall k | 0 <= k < |b.list| :: Right(b, k)
  }

  /** At most one element has this location. */
  ghost predicate Sole(l: seq<Blink>, loc: nat) {
    forall k | 0 <= k < |l| && l[k].location == loc :: k == First(l, loc)
  }

  // ----- one tasklet -----

  /** Ticking the first n elements draws an element, the only one at its location, exactly if it is one of them and
      changes over. */
  lemma {:induction false} DrawnAt(b: Board, n: nat, k: nat)
    requires OnScreen(b) && n <= |b.list| && k < |b.list|
    requires forall j | 0 <= j < |b.list| && j != k :: b.list[j].location != b.list[k].location
    ensures DrawnUpTo(b, n)[2 * b.list[k].location]
         == if k < n && Changes(b.list[k]) then Due(Tick(b.list[k])) else b.video[2 * b.list[k].location]
  {
    if n > 0 { DrawnAt(b, n - 1, k); }
  }

  /** After a tasklet an element's character is right exactly if it has just changed over or was right before. */
  lemma TaskletRight(b: Board, k: nat)
    requires OnScreen(b) && k < |b.list|
    requires forall j | 0 <= j < |b.list| && j != k :: b.list[j].location != b.list[k].location
    ensures Right(Serve(b, Tasklet).0, k) <==> Changes(b.list[k]) || Right(b, k)
  {
    hide Changes;
    DrawnAt(b, |b.list|, k);
    TickKeepsStatus(b.list[k]);
  }

  lemma TickKeepsStatus(b: Blink)
    ensures !Changes(b) ==> Due(Tick(b)) == Due(b)
    ensures Tick(b).location == b.location
  {
  }

  // ----- one sync -----

  /** A sync to an element that it lights: then the character drawn is the wrong one, unless both are the same. */
  predicate Lights(source: Blink, target: Blink) {
    source.status % 2 == 1 && target.onChar != target.offChar
  }

  /** Sync draws the character that the target's new state calls for exactly when the source is off or the target's two
      characters are the same. */
  lemma SyncDraws(b: Board, arg: nat)
    requires OnScreen(b) && Serve(b, Sync(arg)).1 == 0
    ensures var l, now := b.list, Serve(b, Sync(arg)).0;
      var i, j := First(l, arg / HALF_WORD % HALF_WORD), First(l, arg % HALF_WORD);
      && i < |l| && j < |l| && |now.list| == |l|
      && (Right(now, j) <==> l[i].status % 2 == 0 || l[j].onChar == l[j].offChar)
  {
    hide First;
  }

  /** It goes wrong at once: of two characters just added, the one synced to the other shows its off character while
      both are on. */
  lemma SyncOfLitWrong(b: Board, u: Blink, w: Blink)
    requires OnScreen(b) && |b.list| + 2 <= SLOTS && u.location < SLOTS && w.location < SLOTS
    requires u.location != w.location && w.onChar != w.offChar
    ensures var c := Serve(Serve(b, Add(u)).0, Add(w)).0;
      var r := Serve(c, Sync(u.location * HALF_WORD + w.location)).0;
      |r.list| == |b.list| + 2 && r.list[0].location == w.location && r.list[0].status == 1 && !Right(r, 0)
  {
    hide First;
    var c := Serve(Serve(b, Add(u)).0, Add(w)).0;
    var arg := u.location * HALF_WORD + w.location;
    assert arg / HALF_WORD % HALF_WORD == u.location && arg % HALF_WORD == w.location;
    assert c.list[0] == Lit(w, NULL) && c.list[1] == Lit(u, NULL);
    FirstIs(c.list, w.location, 0);
    FirstIs(c.list, u.location, 1);
    SyncDraws(c, arg);
  }

  // ----- whole boards -----

  /** A call that leaves every character right: a new element only where there is none, and no sync that lights its
      target. */
  ghost predicate Careful(b: Board, c: Call)
    requires OnScreen(b)
  {
    Serve(b, c).1 == 0 ==>
      match c
      case Add(u) => Lookup(b.list, u.location) == None
      case Sync(arg) =>
        var source, target := Lookup(b.list, arg / HALF_WORD % HALF_WORD), Lookup(b.list, arg % HALF_WORD);
        source.Some? && target.Some? && !Lights(source.value, target.value)
      case _ => true
  }

  /** Exactly the careful calls keep the screen in agreement with the list. */
  lemma StepAgrees(b: Board, c: Call)
    requires OnScreen(b) && Agreeing(b)
    ensures Agreeing(Serve(b, c).0) <==> Careful(b, c)
  {
    match c
    case Add(u) => AddAgrees(b, u);
    case Remove(arg) => RemoveAgrees(b, arg);
    case Find(arg) =>
    case Sync(arg) => SyncAgrees(b, arg);
    case Tasklet => TaskletAgrees(b);
  }

  lemma AddAgrees(b: Board, u: Blink)
    requires OnScreen(b) && Agreeing(b)
    ensures Agreeing(Serve(b, Add(u)).0) <==> Careful(b, Add(u))
  {
    hide First;
    var l, r := b.list, Serve(b, Add(u)).0;
    if |r.list| != |l| {
      assert forall k | 0 < k < |r.list| :: r.list[k] == l[k - 1];
      var k := First(l, u.location);
      if k < |l| {
        assert r.list[0].location == r.list[k + 1].location;
      } else {
        forall k | 0 <= k < |r.list| ensures Right(r, k) {
          if k > 0 { assert Right(b, k - 1); }
        }
      }
    }
  }

  lemma RemoveAgrees(b: Board, arg: nat)
    requires OnScreen(b) && Agreeing(b)
    ensures Agreeing(Serve(b, Remove(arg)).0)
  {
    hide First;
    var l, r := b.list, Serve(b, Remove(arg)).0;
    if |r.list| != |l| {
      var x := First(l, arg % HALF_WORD);
      assert forall k | 0 <= k < |r.list| :: r.list[k] == l[if k < x then k else k + 1];
      forall k | 0 <= k < |r.list| ensures Right(r, k) {
        assert Right(b, if k < x then k else k + 1);
      }
    }
  }

  lemma SyncAgrees(b: Board, arg: nat)
    requires OnScreen(b) && Agreeing(b)
    ensures Agreeing(Serve(b, Sync(arg)).0) <==> Careful(b, Sync(arg))
  {
    hide First;
    var l, r := b.list, Serve(b, Sync(arg)).0;
    if Serve(b, Sync(arg)).1 == 0 {
      SyncDraws(b, arg);
      var j := First(l, arg % HALF_WORD);
      assert forall k | 0 <= k < |l| :: r.list[k].location == l[k].location;
      forall k | 0 <= k < |l| && k != j ensures Right(r, k) {
        assert Right(b, k);
      }
    }
  }

  lemma TaskletAgrees(b: Board)
    requires OnScreen(b) && Agreeing(b)
    ensures Agreeing(Serve(b, Tasklet).0)
  {
    var r := Serve(b, Tasklet).0;
    forall k | 0 <= k < |r.list| ensures Right(r, k) {
      assert Right(b, k);
      TaskletRight(b, k);
    }
    forall k | 0 <= k < |r.list| ensures r.list[k].location == b.list[k].location {
      TickKeepsStatus(b.list[k]);
    }
  }

  ghost predicate CarefulRun(b: Board, calls: seq<Call>)
    requires OnScreen(b)
    decreases calls
  {
    calls == [] || (Careful(b, calls[0]) && CarefulRun(Serve(b, calls[0]).0, calls[1..]))
  }

  /** Over any run of careful calls every blinking character is on the screen as its state says. */
  lemma {:induction false} RunAgrees(b: Board, calls: seq<Call>)
    requires OnScreen(b) && Agreeing(b) && CarefulRun(b, calls)
    ensures Agreeing(ServeAll(b, calls))
    decreases calls
  {
    hide Serve, Agreeing, Careful;
    if calls != [] {
      StepAgrees(b, calls[0]);
      RunAgrees(Serve(b, calls[0]).0, calls[1..]);
    }
  }

  // ----- one location -----

  /** The character found at a location is on the screen. */
  ghost predicate RightAt(b: Board, loc: nat)
    requires OnScreen(b)
  {
    var k := First(b.list, loc);
    k < |b.list| ==> Right(b, k)
  }

  /** The only element at a location, and the text there, carried over to another board. */
  lemma CarriedOver(b: Board, r: Board, k: nat, at: nat, loc: nat)
    requires OnScreen(b) && OnScreen(r) && k < |b.list| && at < |r.list|
    requires k == First(b.list, loc) && b.list[k].location == loc && r.list[at] == b.list[k]
    requires forall j | 0 <= j < |r.list| && j != at :: r.list[j].location != loc
    requires r.video[2 * loc] == b.video[2 * loc]
    ensures First(r.list, loc) == at && Sole(r.list, loc) && (RightAt(r, loc) <==> RightAt(b, loc))
  {
    hide First;
    FirstIs(r.list, loc, at);
  }

  lemma OthersElsewhere(l: seq<Blink>, loc: nat)
    requires Sole(l, loc)
    ensures forall j | 0 <= j < |l| && j != First(l, loc) :: l[j].location != loc
  {
    hide First;
  }

  /** A call that does not touch a location leaves the text there alone, unless it is a tasklet that changes the
      character over, and then draws the right one. */
  lemma StepRightAt(b: Board, c: Call, loc: nat)
    requires OnScreen(b) && !Touches(c, loc) && Lookup(b.list, loc).Some? && Sole(b.list, loc)
    ensures var r := Serve(b, c).0;
      && Sole(r.list, loc) && Lookup(r.list, loc).Some?
      && (RightAt(r, loc) <==> RightAt(b, loc) || (c.Tasklet? && Changes(Lookup(b.list, loc).value)))
  {
    hide First, Changes, DrawnUpTo, Due, Tick, Sole, RightAt;
    OthersElsewhere(b.list, loc);
    var l, r, k := b.list, Serve(b, c).0, First(b.list, loc);
    if c.Tasklet? {
      TaskletRightAt(b, loc);
    } else if |r.list| > |l| {
      assert forall j | 0 < j < |r.list| :: r.list[j] == l[j - 1];
      CarriedOver(b, r, k, k + 1, loc);
    } else if |r.list| < |l| {
      var x := First(l, c.arg % HALF_WORD);
      assert forall j | 0 <= j < |r.list| :: r.list[j] == l[if j < x then j else j + 1];
      CarriedOver(b, r, k, if k < x then k else k - 1, loc);
    } else {
      assert forall j | 0 <= j < |l| :: r.list[j].location == l[j].location;
      CarriedOver(b, r, k, k, loc);
    }
  }

  lemma TaskletRightAt(b: Board, loc: nat)
    requires OnScreen(b) && Lookup(b.list, loc).Some? && Sole(b.list, loc)
    ensures var r := Serve(b, Tasklet).0;
      && Sole(r.list, loc) && Lookup(r.list, loc).Some?
      && (RightAt(r, loc) <==> RightAt(b, loc) || Changes(Lookup(b.list, loc).value))
  {
    hide First, Changes, Tick;
    var l, r, k := b.list, Serve(b, Tasklet).0, First(b.list, loc);
    forall j | 0 <= j < |l| ensures r.list[j].location == l[j].location { TickKeepsStatus(l[j]); }
    FirstIs(r.list, loc, k);
    TaskletRight(b, k);
  }

  lemma CountsDown(b: Blink)
    ensures Changes(b) <==> Lasting(b.countdown) == 1
    ensures !Changes(b) ==> Lasting(Tick(b).countdown) == Lasting(b.countdown) - 1
  {
  }

  /** Whatever was drawn over it, a character is right again once its present period has run out, and stays right. */
  lemma {:induction false} RightAgain(b: Board, calls: seq<Call>, loc: nat)
    requires OnScreen(b) && Lookup(b.list, loc).Some? && Sole(b.list, loc) && forall c | c in calls :: !Touches(c, loc)
    ensures var r := ServeAll(b, calls);
      RightAt(r, loc) <==> RightAt(b, loc) || Tasklets(calls) >= Lasting(Lookup(b.list, loc).value.countdown)
    decreases calls
  {
    hide Serve, Lookup, Touches, RightAt, Sole, Changes, Lasting, Tick;
    var e := Lookup(b.list, loc).value;
    CountsDown(e);
    LastsSome(e.countdown);
    if calls != [] {
      StepRightAt(b, calls[0], loc);
      ServeElsewhere(b, calls[0], loc);
      RightAgain(Serve(b, calls[0]).0, calls[1..], loc);
    }
  }

  lemma LastsSome(length: Word)
    ensures Lasting(length) >= 1
  {
  }

  /** A character added where there was none blinks: over any run that does not touch its location the screen shows its
      on character for the on period, then its off character for the off period, and so on. */
  lemma Blinks(b: Board, u: Blink, calls: seq<Call>)
    requires OnScreen(b) && Serve(b, Add(u)).1 == 0 && Lookup(b.list, u.location) == None
    requires forall c | c in calls :: !Touches(c, u.location)
    ensures var r := ServeAll(Serve(b, Add(u)).0, calls);
      u.location < SLOTS
      && r.video[2 * u.location] == if Tasklets(calls) % Cycle(u) < Lasting(u.onLength) then u.onChar else u.offChar
  {
    hide ServeAll, Touches, Lasting, Tasklets;
    var now := Serve(b, Add(u)).0;
    assert now.list[0] == Lit(u, NULL) && forall j | 0 < j < |now.list| :: now.list[j] == b.list[j - 1];
    hide First;
    FirstIs(now.list, u.location, 0);
    RightAgain(now, calls, u.location);
    BlinkTiming(b, u, calls);
  }

  /** The target of a sync shows the right character at once exactly if the sync does not light it, and in any case once
      the countdown it was given has run out. */
  lemma SyncedBlinks(b: Board, arg: nat, calls: seq<Call>)
    requires OnScreen(b) && Serve(b, Sync(arg)).1 == 0 && Sole(b.list, arg % HALF_WORD)
    requires forall c | c in calls :: !Touches(c, arg % HALF_WORD)
    ensures var source, target := Lookup(b.list, arg / HALF_WORD % HALF_WORD), Lookup(b.list, arg % HALF_WORD);
      && source.Some? && target.Some?
      && (RightAt(ServeAll(Serve(b, Sync(arg)).0, calls), arg % HALF_WORD)
        <==> !Lights(source.value, target.value) || Tasklets(calls) >= Lasting(source.value.countdown))
  {
    hide First, ServeAll, Touches, Lasting, Tasklets;
    var t, now := arg % HALF_WORD, Serve(b, Sync(arg)).0;
    SyncDraws(b, arg);
    assert forall k | 0 <= k < |b.list| :: now.list[k].location == b.list[k].location;
    FirstIs(now.list, t, First(b.list, t));
    RightAgain(now, calls, t);
  }
}
