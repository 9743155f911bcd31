/**
  console.gateway.ts: the streams of one socket and the map that cancels them.
  A subscribe awaits an access check, then does the rest in one go; anything can
  happen to the socket in between.
 */
module ConsoleStreams {
  import opened Wrappers
  import opened Sets

  datatype View = Console(serverId: string) | Stats(serverId: string)

  /** The key of a view in the cancelStreams map. */
  function Key(view: View): string {
    match view
    case Console(id) => "console:" + id
    case Stats(id) => "stats:" + id
  }

  lemma KeyInjective(a: View, b: View)
    ensures Key(a) == Key(b) ==> a == b
  {
    assert Key(a)[0] == if a.Console? then 'c' else 's';
    assert Key(b)[0] == if b.Console? then 'c' else 's';
    if a.Console? {
      assert Key(a)[8..] == a.serverId;
      if b.Console? { assert Key(b)[8..] == b.serverId; }
    } else {
      assert Key(a)[6..] == a.serverId;
      if b.Stats? { assert Key(b)[6..] == b.serverId; }
    }
  }

  /** A stream opened on a node: the view it feeds and the request that opened it. */
  datatype Stream = Stream(view: View, request: int)

  datatype State = State(
    connected: bool,
    cancels: map<string, int>,
    streams: map<int, Stream>,
    live: set<int>,
    pending: map<int, View>,
    nextId: int)

  const EMPTY := State(true, map[], map[], {}, map[], 0)

  datatype Step =
    | Subscribe(view: View)
    | Refuse(request: int)
    | Resume(request: int, opens: bool)
    | Unsubscribe(view: View)
    | RemoteEnd(stream: int)
    | Disconnect

  /** The streams that calling the map's entry for `key`, if any, cancels. */
  function EntryOf(cancels: map<string, int>, key: string): set<int> {
    if key in cancels then {cancels[key]} else {}
  }

  /** Messages are dispatched while the socket is connected; the access check starts. */
  function AfterSubscribe(s: State, view: View): State {
    if !s.connected then s else s.(pending := s.pending[s.nextId := view], nextId := s.nextId + 1)
  }

  /** Past the access check: cancel the old entry, open the stream, which can throw, and store its cancel. */
  function AfterResume(s: State, request: int, opens: bool): State {
    if request !in s.pending then s
    else
      var view := s.pending[request];
      var waiting := s.(pending := s.pending - {request}, live := s.live - EntryOf(s.cancels, Key(view)));
      if !opens then waiting
      else
        waiting.(streams := s.streams[s.nextId := Stream(view, request)],
                 live := waiting.live + {s.nextId},
                 cancels := s.cancels[Key(view) := s.nextId],
                 nextId := s.nextId + 1)
  }

  function AfterUnsubscribe(s: State, view: View): State {
    if !s.connected then s
    else s.(live := s.live - EntryOf(s.cancels, Key(view)), cancels := s.cancels - {Key(view)})
  }

  /** A socket disconnects once. */
  function AfterDisconnect(s: State): State {
    if !s.connected then s
    else s.(connected := false, live := s.live - s.cancels.Values, cancels := map[])
  }

  function Next(s: State, step: Step): State {
    match step
    case Subscribe(view) => AfterSubscribe(s, view)
    case Refuse(request) => s.(pending := s.pending - {request})
    case Resume(request, opens) => AfterResume(s, request, opens)
    case Unsubscribe(view) => AfterUnsubscribe(s, view)
    case RemoteEnd(stream) => s.(live := s.live - {stream})
    case Disconnect => AfterDisconnect(s)
  }

  function Run(s: State, steps: seq<Step>): State
    decreases steps
  {
    if steps == [] then s else Run(Next(s, steps[0]), steps[1..])
  }

  // ---------------------------------------------------------------------
  // The socket, as an object
  // ---------------------------------------------------------------------

  class Socket {
    var connected: bool
    var cancelStreams: map<string, int>
    var streams: map<int, Stream>
    var live: set<int>
    var pending: map<int, View>
    var nextId: int

    function Db(): State
      reads this
    {
      State(connected, cancelStreams, streams, live, pending, nextId)
    }

    constructor ()
      ensures Db() == EMPTY
    {
      connected, cancelStreams, streams, live, pending, nextId := true, map[], map[], {}, map[], 0;
    }

    /** Cancelling a stream that has ended already does nothing. */
    method Cancel(stream: int)
      modifies this`live
      ensures live == old(live) - {stream}
    {
      live := live - {stream};
    }

    /** subscribeConsole and subscribeStats up to the await. */
    method BeginSubscribe(view: View) returns (request: int)
      requires connected && Inv(Db())
      modifies this`pending, this`nextId
      ensures Db() == AfterSubscribe(old(Db()), view)
      ensures request !in old(pending) && request in pending
      ensures !Quiet(Db(), view)
      ensures forall v :: v != view ==> (Quiet(Db(), v) <==> Quiet(old(Db()), v))
    {
      forall v | v != view ensures Quiet(AfterSubscribe(Db(), view), v) <==> Quiet(Db(), v) {
        OthersQuiet(Db(), view, v);
      }
      request := nextId;
      pending := pending[request := view];
      nextId := nextId + 1;
      assert pending[request] == view;
    }

    /** The rest of subscribeConsole and subscribeStats; `opens` is false when streamCall throws. */
    method EndSubscribe(request: int, opens: bool) returns (subscribed: bool)
      requires request in pending
      modifies this
      ensures Db() == AfterResume(old(Db()), request, opens)
      ensures subscribed <==> opens
      ensures pending == old(pending) - {request}
      ensures Inv(old(Db())) ==>
                forall x :: x in live && x != old(nextId)
                            <==> x in old(live) && streams[x].view != old(pending[request])
      ensures Inv(old(Db())) ==> (old(nextId) in live <==> opens)
      ensures opens ==>
                && streams == old(streams)[old(nextId) := Stream(old(pending[request]), request)]
                && cancelStreams == old(cancelStreams)[Key(old(pending[request])) := old(nextId)]
      ensures !opens ==> streams == old(streams) && cancelStreams == old(cancelStreams)
    {
      var view := pending[request];
      if Inv(Db()) { OthersLive(Db(), view); }
      pending := pending - {request};
      if Key(view) in cancelStreams { Cancel(cancelStreams[Key(view)]); }
      if !opens { return false; }
      var stream := nextId;
      streams := streams[stream := Stream(view, request)];
      live := live + {stream};
      nextId := stream + 1;
      cancelStreams := cancelStreams[Key(view) := stream];
      subscribed := true;
    }

    /** The view falls silent, for good unless a subscribe to it is awaiting; no other view is touched. */
    method Unsubscribe(view: View)
      requires connected && Inv(Db())
      modifies this`live, this`cancelStreams
      ensures Db() == AfterUnsubscribe(old(Db()), view)
      ensures cancelStreams == old(cancelStreams) - {Key(view)}
      ensures forall x :: x in live ==> x in old(live) && streams[x].view != view
      ensures forall x :: x in old(live) && streams[x].view != view ==> x in live
      ensures Quiet(Db(), view) <==> forall r :: r in pending ==> pending[r] != view
    {
      UnsubscribeSilences(Db(), view);
      UnsubscribeIsQuiet(Db(), view);
      if Key(view) in cancelStreams { Cancel(cancelStreams[Key(view)]); }
      cancelStreams := cancelStreams - {Key(view)};
    }

    /** handleDisconnect: every cancel in the map, then the map is cleared. */
    method HandleDisconnect()
      requires connected
      modifies this`connected, this`live, this`cancelStreams
      ensures Db() == AfterDisconnect(old(Db()))
      ensures !connected && cancelStreams == map[]
      ensures Inv(old(Db())) ==> live == {}
    {
      if Inv(Db()) { NoneLiveAfterDisconnect(Db()); }
      connected := false;
      var left := cancelStreams;
      while left.Keys != {}
        invariant !connected && cancelStreams == old(cancelStreams)
        invariant left.Keys <= cancelStreams.Keys
        invariant forall k :: k in left ==> left[k] == cancelStreams[k]
        invariant live == old(live) - (set k | k in cancelStreams && k !in left :: cancelStreams[k])
        decreases |left.Keys|
      {
        var k :| k in left.Keys;
        Cancel(left[k]);
        assert (left - {k}).Keys == left.Keys - {k};
        left := left - {k};
      }
      assert left.Keys == {} && forall k :: k !in left;
      assert (set k | k in cancelStreams && k !in left :: cancelStreams[k]) == cancelStreams.Values;
      cancelStreams := map[];
    }
  }

  // ---------------------------------------------------------------------
  // At most one live stream per view
  // ---------------------------------------------------------------------

  /** Every live stream is its view's entry in the map. */
  ghost predicate Mapped(s: State) {
    forall x :: x in s.live ==>
      x in s.streams && Key(s.streams[x].view) in s.cancels && s.cancels[Key(s.streams[x].view)] == x
  }

  ghost predicate Inv(s: State) {
    && Mapped(s)
    && (forall x :: x in s.streams ==> x < s.nextId)
    && (forall k :: k in s.cancels ==> s.cancels[k] in s.streams && Key(s.streams[s.cancels[k]].view) == k)
    && (forall r :: r in s.pending ==> r < s.nextId)
  }

  lemma StepKeeps(s: State, step: Step)
    requires Inv(s)
    ensures Inv(Next(s, step))
  {
    if step.Disconnect? && s.connected { NoneLiveAfterDisconnect(s); }
  }

  lemma NoneLiveAfterDisconnect(s: State)
    requires Inv(s) && s.connected
    ensures AfterDisconnect(s).live == {}
  {
    forall x ensures x !in AfterDisconnect(s).live {
      if x in s.live { assert s.cancels[Key(s.streams[x].view)] == x; }
    }
  }

  lemma {:induction false} RunKeeps(s: State, steps: seq<Step>)
    requires Inv(s)
    ensures Inv(Run(s, steps))
    decreases steps
  {
    if steps != [] {
      StepKeeps(s, steps[0]);
      RunKeeps(Next(s, steps[0]), steps[1..]);
    }
  }

  /** In every interleaving, a view has at most one live stream, and its map entry is what cancels it. */
  lemma OneStreamPerView(steps: seq<Step>, x: int, y: int)
    ensures var s := Run(EMPTY, steps);
            && (x in s.live ==> x in s.streams && Key(s.streams[x].view) in s.cancels
                                && s.cancels[Key(s.streams[x].view)] == x)
            && (x in s.live && y in s.live && y in s.streams && s.streams[x].view == s.streams[y].view ==> x == y)
  {
    RunKeeps(EMPTY, steps);
  }

  // ---------------------------------------------------------------------
  // A quiet view stays quiet until it is asked for
  // ---------------------------------------------------------------------

  /** No live stream of the view, and no subscribe to it awaiting. */
  ghost predicate Quiet(s: State, view: View) {
    && (forall x :: x in s.live && x in s.streams ==> s.streams[x].view != view)
    && (forall r :: r in s.pending ==> s.pending[r] != view)
  }

  lemma {:induction false} QuietStays(s: State, steps: seq<Step>, view: View)
    requires Inv(s) && Quiet(s, view) && forall k :: 0 <= k < |steps| ==> steps[k] != Subscribe(view)
    ensures Quiet(Run(s, steps), view)
    decreases steps
  {
    if steps != [] {
      StepKeeps(s, steps[0]);
      assert steps[0] != Subscribe(view);
      QuietStays(Next(s, steps[0]), steps[1..], view);
    }
  }

  /** Subscribing to one view does not stir another. */
  lemma OthersQuiet(s: State, view: View, v: View)
    requires Inv(s) && v != view
    ensures Quiet(AfterSubscribe(s, view), v) <==> Quiet(s, v)
  {
    var s' := AfterSubscribe(s, view);
    forall r | r in s.pending ensures r in s'.pending && s'.pending[r] == s.pending[r] {}
  }

  lemma UnsubscribeSilences(s: State, view: View)
    requires Inv(s) && s.connected
    ensures forall x :: x in AfterUnsubscribe(s, view).live ==> x in s.live && s.streams[x].view != view
  {}

  /** Unsubscribing silences a view for good, unless a subscribe to it was still awaiting. */
  lemma UnsubscribeIsQuiet(s: State, view: View)
    requires Inv(s) && s.connected
    ensures Quiet(AfterUnsubscribe(s, view), view) <==> forall r :: r in s.pending ==> s.pending[r] != view
    ensures forall x :: x in s.live && s.streams[x].view != view ==> x in AfterUnsubscribe(s, view).live
  {
    forall x | x in s.live ensures Key(s.streams[x].view) == Key(view) ==> s.streams[x].view == view {
      KeyInjective(s.streams[x].view, view);
    }
  }

  /** A refused subscribe no longer awaits: the view is quiet if nothing else stirs it. */
  lemma RefusedIsOver(s: State, request: int, view: View)
    requires Inv(s) && request in s.pending
    ensures Quiet(Next(s, Refuse(request)), view) <==>
              && (forall x :: x in s.live ==> s.streams[x].view != view)
              && (forall r :: r in s.pending && r != request ==> s.pending[r] != view)
  {
    var s' := Next(s, Refuse(request));
    forall r | r in s.pending && r != request ensures r in s'.pending && s'.pending[r] == s.pending[r] {}
  }

  /** Cancelling a view's entry ends its live stream and no other. */
  lemma OthersLive(s: State, view: View)
    requires Inv(s)
    ensures forall x :: x in s.live ==> (s.streams[x].view != view <==> x !in EntryOf(s.cancels, Key(view)))
  {
    forall x | x in s.live ensures s.streams[x].view != view <==> x !in EntryOf(s.cancels, Key(view)) {
      KeyInjective(s.streams[x].view, view);
    }
  }

  // ---------------------------------------------------------------------
  // After the socket is gone
  // ---------------------------------------------------------------------

  /** Disconnected, with only requests among `late` awaiting, and only their streams live. */
  ghost predicate OnlyLate(s: State, late: set<int>) {
    && !s.connected
    && s.pending.Keys <= late
    && forall x :: x in s.live ==> x in s.streams && s.streams[x].request in late
  }

  lemma {:induction false} OnlyLateStays(s: State, steps: seq<Step>, late: set<int>)
    requires Inv(s) && OnlyLate(s, late)
    ensures OnlyLate(Run(s, steps), late)
    decreases steps
  {
    if steps != [] {
      StepKeeps(s, steps[0]);
      OnlyLateStays(Next(s, steps[0]), steps[1..], late);
    }
  }

  /** After a disconnect, whatever is live was opened by a subscribe that was still awaiting then. */
  lemma OnlyAwaitingSurvive(before: seq<Step>, after: seq<Step>, x: int)
    ensures var s := Run(EMPTY, before);
            var s' := Run(AfterDisconnect(s), after);
            s.connected && x in s'.live ==> x in s'.streams && s'.streams[x].request in s.pending
  {
    var s := Run(EMPTY, before);
    RunKeeps(EMPTY, before);
    if s.connected {
      StepKeeps(s, Disconnect);
      NoneLiveAfterDisconnect(s);
      OnlyLateStays(AfterDisconnect(s), after, s.pending.Keys);
    }
  }

  /** The steps end stream `x`, or open its view again. */
  predicate Touched(s: State, steps: seq<Step>, x: int, view: View)
    decreases steps
  {
    steps != []
    && (steps[0] == RemoteEnd(x)
        || (steps[0].Resume? && steps[0].request in s.pending && s.pending[steps[0].request] == view)
        || Touched(Next(s, steps[0]), steps[1..], x, view))
  }

  lemma {:induction false} EndedStaysEnded(s: State, steps: seq<Step>, x: int)
    requires Inv(s) && x in s.streams && x !in s.live
    ensures x !in Run(s, steps).live
    decreases steps
  {
    if steps != [] {
      StepKeeps(s, steps[0]);
      EndedStaysEnded(Next(s, steps[0]), steps[1..], x);
    }
  }

  /** One step against a stream that is live after the disconnect. */
  lemma LateStep(s: State, step: Step, x: int)
    requires Inv(s) && !s.connected && x in s.live
    ensures x in Next(s, step).streams && Next(s, step).streams[x] == s.streams[x] && !Next(s, step).connected
    ensures x in Next(s, step).live
            <==> !(step == RemoteEnd(x)
                   || (step.Resume? && step.request in s.pending && s.pending[step.request] == s.streams[x].view))
  {
    if step.Resume? && step.request in s.pending {
      KeyInjective(s.pending[step.request], s.streams[x].view);
    }
  }

  /** A stream that is live after the disconnect stays so until its node ends it or its view is opened again. */
  lemma {:induction false} LeakStays(s: State, steps: seq<Step>, x: int)
    requires Inv(s) && !s.connected && x in s.live
    ensures x in Run(s, steps).live <==> !Touched(s, steps, x, s.streams[x].view)
    decreases steps
  {
    if steps != [] {
      var s1 := Next(s, steps[0]);
      StepKeeps(s, steps[0]);
      LateStep(s, steps[0], x);
      if x in s1.live {
        LeakStays(s1, steps[1..], x);
      } else {
        EndedStaysEnded(s1, steps[1..], x);
      }
    }
  }

  /** The exact condition: a disconnect leaves nothing behind iff no subscribe is awaiting. */
  lemma DisconnectIsFinal(before: seq<Step>)
    requires Run(EMPTY, before).connected
    ensures var s := Run(EMPTY, before);
            (forall after :: Run(AfterDisconnect(s), after).live == {}) <==> s.pending == map[]
  {
    var s := Run(EMPTY, before);
    RunKeeps(EMPTY, before);
    if s.pending == map[] {
      forall after ensures Run(AfterDisconnect(s), after).live == {} {
        forall x ensures x !in Run(AfterDisconnect(s), after).live {
          OnlyAwaitingSurvive(before, after, x);
        }
      }
    } else {
      var r := Member(s.pending.Keys);
      var gone, after := AfterDisconnect(s), [Resume(r, true)];
      assert after[1..] == [];
      assert Run(gone, after) == Next(gone, Resume(r, true));
      assert gone.nextId in Run(gone, after).live;
      assert Run(AfterDisconnect(s), after).live != {};
    }
  }

  /** The first view subscribed to, the socket gone before the access check is through: its stream is live. */
  lemma SubscribeOutlivesSocket(view: View)
    ensures Run(EMPTY, [Subscribe(view)]).connected && Run(EMPTY, [Subscribe(view)]).pending == map[0 := view]
    ensures var s := Run(AfterDisconnect(Run(EMPTY, [Subscribe(view)])), [Resume(0, true)]);
            !s.connected && s.live == {1} && 1 in s.streams && s.streams[1] == Stream(view, 0)
  {
    var s := Next(EMPTY, Subscribe(view));
    assert [Subscribe(view)][1..] == [] && [Resume(0, true)][1..] == [];
    assert Run(EMPTY, [Subscribe(view)]) == s;
    assert Run(AfterDisconnect(s), [Resume(0, true)]) == Next(AfterDisconnect(s), Resume(0, true));
    assert AfterDisconnect(s).live == {};
  }
}
