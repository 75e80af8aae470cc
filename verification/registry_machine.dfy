/**
 The registry, its subscriptions and their pump goroutines as one machine.

 An operation that stores a value takes the registry lock and hands its frames out one at a
 time: append to a queue, then signal the queue's wake channel. Pumps, readers, new
 subscribers and unsubscribers interleave with that at every point the locks allow.
 */
module RegistryMachine {
  import opened Common
  import opened Values
  import opened RegistrySpec

  // Where a pump goroutine stands; `Ended` keeps the frame it was holding when stopped.
  datatype Pump = Top | Waiting | Holding(frame: Frame) | Ended(dropped: seq<Frame>)

  // `since` and `until` bound the part of the history the subscription lived through;
  // `steady` is what its creator believed about the cloud.
  datatype Sub = Sub(
    name: string, client: string, steady: bool, first: Frame,
    since: nat, until: Option<nat>,
    pending: bool, queue: seq<Frame>, wake: bool, pump: Pump, closed: bool,
    delivered: seq<Frame>)

  // Who holds the registry lock: nobody, or an operation with frames still to enqueue and
  // perhaps one subscription appended to but not yet signalled.
  datatype Lock = Free | Held(todo: seq<(nat, Frame)>, signal: Option<nat>)

  datatype State = State(
    vars: map<string, Stored>,
    listeners: map<string, seq<nat>>,
    subs: seq<Sub>,
    history: seq<Op>,
    lock: Lock)

  datatype Event =
    | SetValue(name: string, value: Value, ts: int, origin: string)
    | ApplyLastValues(values: seq<Announcement>, order: seq<string>)
    | Subscribe(name: string, client: string, steady: bool)
    | Remove(sub: nat)
    | Stop(sub: nat)
    | Append
    | Signal
    | Release
    | PumpCheck(sub: nat)
    | PumpWake(sub: nat)
    | PumpDeliver(sub: nat)
    | PumpClose(sub: nat)

  const INIT := State(map[], map[], [], [], Free)

  function ListenersOf(listeners: map<string, seq<nat>>, name: string): seq<nat> {
    if name in listeners then listeners[name] else []
  }

  function StoredIn(vars: map<string, Stored>, name: string): Option<(Value, int)> {
    if name in vars && vars[name].ts != 0 && vars[name].value.Some?
    then Some((vars[name].value.value, vars[name].ts)) else None
  }

  // Which of a list of subscriptions a frame goes to.
  datatype Keep = NotFrom(origin: string) | Everyone | OnlyPending

  predicate Keeps(keep: Keep, s: Sub) {
    match keep
    case NotFrom(origin) => !OwnWrite(origin, s.client)
    case Everyone => true
    case OnlyPending => s.pending
  }

  function Fanout(ids: seq<nat>, keep: Keep, f: Frame, subs: seq<Sub>): seq<(nat, Frame)> {
    if ids == [] then []
    else
      Fanout(ids[..|ids| - 1], keep, f, subs)
      + var id := ids[|ids| - 1]; if id < |subs| && Keeps(keep, subs[id]) then [(id, f)] else []
  }

  function AnnounceTodo(values: seq<Announcement>, listeners: map<string, seq<nat>>, subs: seq<Sub>): seq<(nat, Frame)> {
    if values == [] then []
    else
      var v := values[|values| - 1];
      AnnounceTodo(values[..|values| - 1], listeners, subs)
      + Fanout(ListenersOf(listeners, v.name), Everyone, LastValueFrame(v.name, v.value, v.ts), subs)
  }

  // The second pass, in whatever order the map of listeners is walked.
  function MissingTodo(order: seq<string>, values: seq<Announcement>, listeners: map<string, seq<nat>>, subs: seq<Sub>)
    : seq<(nat, Frame)>
  {
    if order == [] then []
    else
      var name := order[|order| - 1];
      MissingTodo(order[..|order| - 1], values, listeners, subs)
      + (if Announced(values, name).Some? then []
         else Fanout(ListenersOf(listeners, name), OnlyPending, BareFrame(name, LastValueMissing), subs))
  }

  function StoreAll(vars: map<string, Stored>, values: seq<Announcement>): map<string, Stored> {
    if values == [] then vars
    else
      var v := values[|values| - 1];
      StoreAll(vars, values[..|values| - 1])[v.name := Stored(Some(v.value), v.ts)]
  }

  predicate Distinct<T(==)>(s: seq<T>) {
    forall i, j :: 0 <= i < j < |s| ==> s[i] != s[j]
  }

  // Each name with listeners exactly once.
  predicate Walks(order: seq<string>, listeners: map<string, seq<nat>>) {
    Distinct(order) && (forall n <- order :: n in listeners) && (forall n <- listeners :: n in order)
  }

  function Placeholder(vars: map<string, Stored>, name: string): map<string, Stored> {
    if name in vars then vars else vars[name := Stored(None, 0)]
  }

  function Without(ids: seq<nat>, id: nat): seq<nat> {
    if ids == [] then []
    else if ids[0] == id then ids[1..]
    else [ids[0]] + Without(ids[1..], id)
  }

  function Apply(s: State, e: Event): Option<State> {
    match e
    case SetValue(n, v, ts, origin) =>
      if s.lock.Free? && ts != 0 then
        Some(s.(vars := s.vars[n := Stored(Some(v), ts)],
             history := s.history + [Write(n, v, ts, origin)],
             lock := Held(Fanout(ListenersOf(s.listeners, n), NotFrom(origin), UpdateFrame(n, v, ts), s.subs), None)))
      else None
    case ApplyLastValues(values, order) =>
      if s.lock.Free? && Walks(order, s.listeners) && (forall v <- values :: v.ts != 0) then
        Some(s.(vars := StoreAll(s.vars, values),
             history := s.history + [Announce(values)],
             lock := Held(AnnounceTodo(values, s.listeners, s.subs)
                          + MissingTodo(order, values, s.listeners, s.subs), None)))
      else None
    case Subscribe(n, c, steady) =>
      if s.lock.Free? then
        var stored := StoredIn(s.vars, n);
        var sub := Sub(n, c, steady, FirstFrame(n, stored, steady), |s.history|, None,
                       OwesVerdict(stored, steady), [], false, Top, false, []);
        Some(s.(vars := Placeholder(s.vars, n), subs := s.subs + [sub],
             listeners := s.listeners[n := ListenersOf(s.listeners, n) + [|s.subs|]]))
      else None
    case Remove(i) =>
      if s.lock.Free? && i < |s.subs| && s.subs[i].until.None? then
        var n := s.subs[i].name;
        Some(s.(subs := s.subs[i := s.subs[i].(until := Some(|s.history|))],
             listeners := s.listeners[n := Without(ListenersOf(s.listeners, n), i)]))
      else None
    case Append =>
      if s.lock.Held? && s.lock.signal.None? && s.lock.todo != [] && s.lock.todo[0].0 < |s.subs| then
        var (i, f) := s.lock.todo[0];
        Some(s.(subs := s.subs[i := Handed(s.subs[i], f)], lock := Held(s.lock.todo[1..], Some(i))))
      else None
    case Signal =>
      if s.lock.Held? && s.lock.signal.Some? && s.lock.signal.value < |s.subs| then
        var i := s.lock.signal.value;
        Some(s.(subs := s.subs[i := s.subs[i].(wake := true)], lock := Held(s.lock.todo, None)))
      else None
    case Release =>
      if s.lock == Held([], None) then Some(s.(lock := Free)) else None
    case _ => ApplyLocal(s, e)
  }

  // A frame of an announcement, hit or missing, takes the pending flag down as it is queued.
  function Handed(s: Sub, f: Frame): Sub {
    s.(queue := s.queue + [f], pending := s.pending && f.kind.Update?)
  }

  // Steps of one subscription's own goroutines.
  function Local(s: Sub, e: Event): Option<Sub> {
    match e
    case Stop(_) => if s.until.Some? then Some(s.(closed := true)) else None
    case PumpCheck(_) =>
      if !s.pump.Top? then None
      else if s.queue == [] then Some(s.(pump := Waiting))
      else Some(s.(queue := s.queue[1..], pump := Holding(s.queue[0])))
    case PumpWake(_) => if s.pump.Waiting? && s.wake then Some(s.(wake := false, pump := Top)) else None
    case PumpDeliver(_) =>
      if s.pump.Holding? then Some(s.(delivered := s.delivered + [s.pump.frame], pump := Top)) else None
    case PumpClose(_) =>
      if s.closed && s.pump.Waiting? then Some(s.(pump := Ended([])))
      else if s.closed && s.pump.Holding? then Some(s.(pump := Ended([s.pump.frame])))
      else None
    case _ => None
  }

  function ApplyLocal(s: State, e: Event): Option<State> {
    if (e.Stop? || e.PumpCheck? || e.PumpWake? || e.PumpDeliver? || e.PumpClose?)
       && e.sub < |s.subs| && Local(s.subs[e.sub], e).Some?
    then Some(s.(subs := s.subs[e.sub := Local(s.subs[e.sub], e).value]))
    else None
  }

  ghost function Exec(events: seq<Event>): Option<State> {
    if events == [] then Some(INIT)
    else
      match Exec(events[..|events| - 1])
      case None => None
      case Some(s) => Apply(s, events[|events| - 1])
  }
}
