/** What the cursor service shows: each cursor found by a callback gets to the screen, and an idle service
    forgets all of them. */
module CursorScreen {
  import opened Wrappers
  import opened CursorStream
  import opened PubSub
  import opened CursorService

  // ---- The cursor gets to the screen ----

  /** The messages broadcast since the last reset. */
  function SinceReset(s: State): seq<Message>
    requires s.resetAt <= |s.broadcasts|
  {
    s.broadcasts[s.resetAt..]
  }

  /** The handle on the screen: that of the last broadcast since the reset. */
  function Shown(sent: seq<Message>): nat {
    if sent != [] && sent[|sent| - 1].CursorData? then sent[|sent| - 1].id else 0
  }

  /** Where a handle was broadcast since the reset. */
  predicate WasSent(sent: seq<Message>, h: nat) {
    exists k | 0 <= k < |sent| :: sent[k].CursorData? && sent[k].id == h
  }

  /** The thread's state is what has been broadcast since the reset. */
  ghost predicate Matches(c: Cursor, sent: seq<Message>) {
    && (forall k | 0 <= k < |sent| :: sent[k].CursorData?)
    && c.hcursor == Shown(sent)
    && (forall h | h in c.cache :: WasSent(sent, h))
    && (forall k | 0 <= k < |sent| :: sent[k].id in c.cache && c.cache[sent[k].id] == sent[k])
  }

  ghost predicate OnScreen(s: State) {
    s.resetAt <= |s.broadcasts| && Matches(s.cursor, SinceReset(s))
  }

  /** What a callback that finds a handle does to the broadcasts since the reset: nothing when the handle
      is on the screen; otherwise the message it was sent with before goes out again, or a new one with
      the image fetched; without an image the callback fails. */
  ghost predicate Brings(sent: seq<Message>, h: nat, image: Option<Image>, failed: bool, sent': seq<Message>) {
    && (failed <==> h != Shown(sent) && image.None? && !WasSent(sent, h))
    && (failed || h == Shown(sent) ==> sent' == sent)
    && (!failed && h != Shown(sent) ==>
          && |sent'| == |sent| + 1 && sent'[..|sent|] == sent
          && var msg := sent'[|sent|];
          && msg.CursorData? && msg.id == h
          && if WasSent(sent, h) then msg in sent else image == Some(msg.image))
  }

  function Plus(sent: seq<Message>, msg: Option<Message>): seq<Message> {
    if msg.Some? then sent + [msg.value] else sent
  }

  /** A message joins the broadcasts together with the state that remembers it. */
  lemma MatchesOneMore(c: Cursor, sent: seq<Message>, msg: Message, cache: map<nat, Message>)
    requires Matches(c, sent) && msg.CursorData?
    requires msg.id in c.cache ==> msg == c.cache[msg.id]
    requires cache == c.cache[msg.id := msg]
    ensures Matches(Cursor(msg.id, msg, cache), sent + [msg])
  {
    var sent' := sent + [msg];
    assert sent'[|sent|] == msg;
    forall h | h in cache ensures WasSent(sent', h) {
      if h != msg.id {
        var k :| 0 <= k < |sent| && sent[k].CursorData? && sent[k].id == h;
        assert sent'[k].id == h;
      }
    }
  }

  lemma ProbeBrings(c: Cursor, sent: seq<Message>, h: nat, image: Option<Image>)
    requires Matches(c, sent)
    ensures match AfterProbe(c, Handle(h, image))
            case None => Brings(sent, h, image, true, sent)
            case Some((c', msg)) =>
              && Matches(c', Plus(sent, msg)) && Brings(sent, h, image, false, Plus(sent, msg))
              && Shown(Plus(sent, msg)) == h
  {
    assert h in c.cache <==> WasSent(sent, h);
    if h != c.hcursor && h in c.cache {
      var k :| 0 <= k < |sent| && sent[k].CursorData? && sent[k].id == h;
      assert c.cache[h] == sent[k] && c.cache[h := c.cache[h]] == c.cache;
      MatchesOneMore(c, sent, c.cache[h], c.cache);
    } else if h != c.hcursor && image.Some? {
      MatchesOneMore(c, sent, CursorData(h, image.value), c.cache[h := CursorData(h, image.value)]);
    }
  }

  lemma CallSends(s: State, p: Probe)
    requires s.pc == Calling && s.resetAt <= |s.broadcasts|
    ensures var s' := Step(s, Call(p));
            && s'.resetAt == s.resetAt <= |s'.broadcasts|
            && match AfterProbe(s.cursor, p)
               case None => s'.pc == Top && s'.cursor == s.cursor && SinceReset(s') == SinceReset(s)
               case Some((c, msg)) =>
                 s'.pc == AtSnapshot && s'.cursor == c && SinceReset(s') == Plus(SinceReset(s), msg)
  {
  }

  lemma CallBrings(s: State, h: nat, image: Option<Image>)
    requires OnScreen(s) && s.pc == Calling
    ensures var s' := Step(s, Call(Handle(h, image)));
            && OnScreen(s') && s'.resetAt == s.resetAt
            && Brings(SinceReset(s), h, image, s'.pc == Top, SinceReset(s'))
            && (s'.pc == Top || Shown(SinceReset(s')) == h)
  {
    CallSends(s, Handle(h, image));
    ProbeBrings(s.cursor, SinceReset(s), h, image);
    hide Step, Brings, Matches, AfterProbe;
  }

  lemma OthersKeepScreen(s: State, e: Event)
    requires Enabled(s, e) && !e.Call? && !e.Reset?
    ensures var s' := Step(s, e);
            s'.cursor == s.cursor && s'.broadcasts == s.broadcasts && s'.resetAt == s.resetAt
  {
  }

  lemma StepOnScreen(s: State, e: Event)
    requires OnScreen(s) && Enabled(s, e)
    ensures OnScreen(Step(s, e))
  {
    match e
    case Call(Handle(h, image)) => CallBrings(s, h, image);
    case Call(p) => CallSends(s, p);
    case Reset => assert SinceReset(Step(s, e)) == [];
    case _ =>
      OthersKeepScreen(s, e);
      hide Step, Matches;
  }

  lemma {:induction false} RunOnScreen(s: State, es: seq<Event>)
    requires OnScreen(s) && Enableds(s, es)
    ensures OnScreen(Run(s, es))
    decreases |es|
  {
    if es == [] {
    } else {
      StepOnScreen(s, es[0]);
      RunOnScreen(Step(s, es[0]), es[1..]);
    }
  }

  /** In every interleaving a probe that does not fail leaves its handle on the screen. */
  lemma ProbeReachesScreen(es: seq<Event>, h: nat, image: Option<Image>)
    requires Enableds(INITIAL, es) && Run(INITIAL, es).pc == Calling
    ensures var s := Run(INITIAL, es);
            var s' := Step(s, Call(Handle(h, image)));
            && s.resetAt == s'.resetAt <= |s.broadcasts| <= |s'.broadcasts|
            && Brings(SinceReset(s), h, image, s'.pc == Top, SinceReset(s'))
            && (s'.pc == Top || (Shown(SinceReset(s')) == h && s'.cursor.hcursor == h))
  {
    assert SinceReset(INITIAL) == [];
    RunOnScreen(INITIAL, es);
    CallBrings(Run(INITIAL, es), h, image);
  }

  function SeenMore(seen: seq<nat>, h: nat): seq<nat> {
    if h == (if seen == [] then 0 else seen[|seen| - 1]) then seen else seen + [h]
  }

  /** A callback that finds no handle broadcasts nothing; it fails when the system does. */
  lemma OtherProbesBringNothing(s: State, p: Probe)
    requires s.pc == Calling && !p.Handle?
    ensures var s' := Step(s, Call(p));
            && s'.broadcasts == s.broadcasts && s'.cursor == s.cursor && s'.svc == s.svc
            && s'.pc == if p == Failed then Top else AtSnapshot
  {
  }

  /** The handles found since the reset, without repetitions. */
  function SeenAfter(s: State, e: Event, seen: seq<nat>): seq<nat>
    requires Enabled(s, e)
  {
    if e.Reset? then []
    else if e.Call? && e.p.Handle? && Step(s, e).pc != Top then SeenMore(seen, e.p.h)
    else seen
  }

  ghost function Seen(s: State, es: seq<Event>, seen: seq<nat>): seq<nat>
    requires Enableds(s, es)
    decreases |es|
  {
    if es == [] then seen else Seen(Step(s, es[0]), es[1..], SeenAfter(s, es[0], seen))
  }

  predicate AreOf(sent: seq<Message>, seen: seq<nat>) {
    |sent| == |seen| && forall k | 0 <= k < |seen| :: sent[k].CursorData? && sent[k].id == seen[k]
  }

  ghost predicate ShowsSeen(s: State, seen: seq<nat>) {
    OnScreen(s) && AreOf(SinceReset(s), seen)
  }

  lemma BringsSeen(sent: seq<Message>, h: nat, image: Option<Image>, failed: bool, sent': seq<Message>, seen: seq<nat>)
    requires AreOf(sent, seen) && Brings(sent, h, image, failed, sent')
    ensures AreOf(sent', if failed then seen else SeenMore(seen, h))
  {
    if |sent'| == |sent| + 1 {
      assert forall k | 0 <= k < |sent| :: sent'[k] == sent'[..|sent|][k];
    }
  }

  lemma StepShowsSeen(s: State, e: Event, seen: seq<nat>)
    requires ShowsSeen(s, seen) && Enabled(s, e)
    ensures ShowsSeen(Step(s, e), SeenAfter(s, e, seen))
  {
    StepOnScreen(s, e);
    var sent, sent' := SinceReset(s), SinceReset(Step(s, e));
    match e
    case Call(Handle(h, image)) =>
      CallBrings(s, h, image);
      hide Step, OnScreen, Matches, Brings, AreOf, SeenMore, SinceReset;
      BringsSeen(sent, h, image, Step(s, e).pc == Top, sent', seen);
    case Call(p) =>
      CallSends(s, p);
    case Reset =>
      assert sent' == [];
    case _ =>
      OthersKeepScreen(s, e);
      hide Step, Matches;
  }

  lemma {:induction false} RunShowsSeen(s: State, es: seq<Event>, seen: seq<nat>)
    requires ShowsSeen(s, seen) && Enableds(s, es)
    ensures ShowsSeen(Run(s, es), Seen(s, es, seen))
    decreases |es|
  {
    if es == [] {
    } else {
      StepShowsSeen(s, es[0], seen);
      RunShowsSeen(Step(s, es[0]), es[1..], SeenAfter(s, es[0], seen));
    }
  }

  /** In every interleaving the images broadcast since the reset are those of the handles found since,
      in order and without repetitions. */
  lemma BroadcastsAreSeen(es: seq<Event>, k: nat)
    requires Enableds(INITIAL, es)
    ensures var s, seen := Run(INITIAL, es), Seen(INITIAL, es, []);
            && s.resetAt <= |s.broadcasts| && |SinceReset(s)| == |seen|
            && (k < |seen| ==> SinceReset(s)[k].CursorData? && SinceReset(s)[k].id == seen[k])
  {
    assert SinceReset(INITIAL) == [];
    RunShowsSeen(INITIAL, es, []);
  }

  // ---- A service left alone forgets ----

  ghost predicate ResetIsDue(s: State) {
    s.pc == Top && s.cursor != NO_CURSOR ==> s.mayReset
  }

  lemma {:induction false} RunKeepsResetDue(s: State, es: seq<Event>)
    requires ResetIsDue(s) && Enableds(s, es)
    ensures ResetIsDue(Run(s, es))
    decreases |es|
  {
    if es == [] {
    } else {
      RunKeepsResetDue(Step(s, es[0]), es[1..]);
    }
  }

  /** In every interleaving, when nobody is subscribed at the start of a turn, the turn forgets the cursor
      and all its images, unless nothing is remembered. */
  lemma IdleTurnForgets(es: seq<Event>)
    requires Enableds(INITIAL, es)
    requires var s := Run(INITIAL, es); s.pc == Top && s.svc.live == map[] && s.svc.pending == map[]
    ensures var s := Run(INITIAL, es);
            if s.cursor == NO_CURSOR && !s.mayReset then Step(s, Turn) == s
            else Step(s, Turn).pc == Resetting && Step(Step(s, Turn), Reset).cursor == Cursor(0, EMPTY, map[])
  {
    RunKeepsResetDue(INITIAL, es);
  }
}
