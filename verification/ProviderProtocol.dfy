/** All interleavings of client calls, orphaned closes and provider replies over one
    provider channel (`resource/scheme.rs`). */
module ProviderProtocol {
  import opened Common
  import opened RunBoard

  /** What a request asks, and what an answer says. */
  type Body = nat

  /** A message with a readable header, or one too short to have one. */
  datatype Frame = Frame(id: nat, body: Body) | Short

  /** Where a client is in `round_trip_with_attachment`. */
  datatype Phase = Outside | Locking(id: nat, body: Body) | Receiving(id: nat, body: Body)

  /** A client process; `blocked` when the scheduler has it blocked. */
  datatype Client = Client(phase: Phase, blocked: bool)

  /** `holder` records who took the lock; the code only has the busy flag. */
  datatype State = State(clients: map<nat, Client>,
                         busy: bool,
                         holder: Option<nat>,
                         waiters: seq<nat>,
                         slot: Option<nat>,
                         replies: seq<Frame>,
                         closed: bool,
                         nextId: nat,
                         asked: map<nat, Body>)
  {
    function PhaseOf(p: nat): Phase {
      if p in clients then clients[p].phase else Outside
    }

    predicate IsBlocked(p: nat) {
      p in clients && clients[p].blocked
    }

    function Put(p: nat, phase: Phase, blocked: bool): State {
      this.(clients := clients[p := Client(phase, blocked)])
    }
  }

  datatype Outcome = Answer(frame: Frame) | Disconnected | Protocol

  // ---------------------------------------------------------------------------
  // Effects
  // ---------------------------------------------------------------------------

  /** `wake_process` for a set of processes. */
  function Awaken(clients: map<nat, Client>, who: set<nat>): map<nat, Client> {
    map p | p in clients :: if p in who then clients[p].(blocked := false) else clients[p]
  }

  ghost function Members(s: seq<nat>): set<nat> {
    set i | 0 <= i < |s| :: s[i]
  }

  /** Client `p` leaves and drops the lock guard: everybody listed is woken. */
  ghost function Release(s: State, p: nat): State {
    var t := s.Put(p, Outside, false);
    t.(busy := false, holder := None, waiters := [], clients := Awaken(t.clients, Members(s.waiters)))
  }

  /** A reply or close on the provider's side wakes whoever is in the endpoint's slot. */
  ghost function WakeSlot(s: State): State {
    s.(slot := None, clients := if s.slot.Some? then Awaken(s.clients, {s.slot.value}) else s.clients)
  }

  // ---------------------------------------------------------------------------
  // Steps
  // ---------------------------------------------------------------------------

  datatype Action =
    | Begin(pid: nat, body: Body)
    | PollLock(pid: nat, again: bool, sendFails: bool)
    | PollReceive(pid: nat, again: bool)
    | Abandon(pid: nat)
    | SendClose(body: Body)
    | ProviderReplies(frame: Frame)
    | ProviderTakes
    | ProviderExits

  /** The step, and the outcome a client returns with, if it does. */
  ghost predicate Step(s: State, a: Action, s': State, out: Option<Outcome>) {
    match a
    case Begin(p, body) =>
      // a fresh request number; the first poll is still to come
      && s.PhaseOf(p) == Outside && out == None
      && s' == s.Put(p, Locking(s.nextId, body), false).(nextId := s.nextId + 1)
    case PollLock(p, again, sendFails) =>
      && s.PhaseOf(p).Locking? && !s.IsBlocked(p)
      && (if s.busy then
            // listed once; the second poll in a row blocks
            && out == None
            && s' == s.Put(p, s.PhaseOf(p), again).(waiters := if p in s.waiters then s.waiters else s.waiters + [p])
          else if sendFails then
            out == Some(Disconnected) && s' == Release(s, p)
          else
            && out == None
            && s' == s.Put(p, Receiving(s.PhaseOf(p).id, s.PhaseOf(p).body), false)
                      .(busy := true, holder := Some(p), asked := s.asked[s.PhaseOf(p).id := s.PhaseOf(p).body]))
    case PollReceive(p, again) =>
      && s.PhaseOf(p).Receiving? && !s.IsBlocked(p)
      && (if s.replies == [] then
            if s.closed then out == Some(Disconnected) && s' == Release(s, p)
            else out == None && s' == s.Put(p, s.PhaseOf(p), again).(slot := Some(p))
          else
            var frame := s.replies[0];
            var rest := s.(replies := s.replies[1..]);
            match frame
            case Short => out == Some(Protocol) && s' == Release(rest, p)
            case Frame(id, _) =>
              if id == s.PhaseOf(p).id then out == Some(Answer(frame)) && s' == Release(rest, p)
              else out == None && s' == rest)
    case Abandon(p) =>
      // the process goes away, dropping its call and the guard it may hold
      && out == None && s.PhaseOf(p) != Outside
      && s' == if s.PhaseOf(p).Receiving? then Release(s, p) else s.Put(p, Outside, false)
    case SendClose(body) =>
      // fire and forget, without the lock
      out == None && s' == s.(nextId := s.nextId + 1, asked := s.asked[s.nextId := body])
    case ProviderReplies(frame) =>
      out == None && !s.closed && s' == WakeSlot(s.(replies := s.replies + [frame]))
    case ProviderTakes =>
      // a request taken from a full queue wakes whoever is in the slot, for nothing
      out == None && s' == WakeSlot(s)
    case ProviderExits =>
      out == None && s' == WakeSlot(s.(closed := true))
  }

  // ---------------------------------------------------------------------------
  // The lock admits one round trip
  // ---------------------------------------------------------------------------

  /** At most one client is between taking the lock and dropping it, and only while it
      is busy; blocked clients will be woken. */
  ghost predicate Exclusive(s: State) {
    && (forall p: nat :: s.PhaseOf(p).Receiving? <==> s.holder == Some(p))
    && (s.busy <==> s.holder.Some?)
    && (forall p <- s.clients :: s.clients[p].blocked ==> Woken(s, p, s.clients[p].phase))
  }

  /** A client blocked on the lock finds it busy and is listed; one blocked on a reply
      finds none, and is in the slot. */
  predicate Woken(s: State, p: nat, phase: Phase) {
    match phase
    case Outside => false
    case Locking(_, _) => s.busy && p in s.waiters
    case Receiving(_, _) => s.replies == [] && !s.closed && s.slot == Some(p)
  }

  lemma ReleaseKeeps(s: State, p: nat)
    requires Exclusive(s) && (s.holder == None || s.holder == Some(p))
    ensures Exclusive(Release(s, p))
  {
  }

  lemma WakeSlotKeeps(s: State, s': State)
    requires Exclusive(s) && s' == s.(replies := s'.replies, closed := s'.closed)
    ensures Exclusive(WakeSlot(s'))
  {
  }

  lemma PollLockKeeps(s: State, a: Action, s': State, out: Option<Outcome>)
    requires Exclusive(s) && a.PollLock? && Step(s, a, s', out)
    ensures Exclusive(s')
  {
    if !s.busy && a.sendFails { ReleaseKeeps(s, a.pid); }
  }

  lemma PollReceiveKeeps(s: State, a: Action, s': State, out: Option<Outcome>)
    requires Exclusive(s) && a.PollReceive? && Step(s, a, s', out)
    ensures Exclusive(s')
  {
    if s.replies == [] {
      if s.closed { ReleaseKeeps(s, a.pid); }
    } else {
      ReleaseKeeps(s.(replies := s.replies[1..]), a.pid);
    }
  }

  lemma StepKeepsExclusive(s: State, a: Action, s': State, out: Option<Outcome>)
    requires Exclusive(s) && Step(s, a, s', out)
    ensures Exclusive(s')
  {
    match a {
      case Begin(p, body) =>
      case PollLock(p, again, fails) => PollLockKeeps(s, a, s', out);
      case PollReceive(p, again) => PollReceiveKeeps(s, a, s', out);
      case Abandon(p) => if s.PhaseOf(p).Receiving? { ReleaseKeeps(s, p); }
      case SendClose(body) =>
      case ProviderReplies(frame) => WakeSlotKeeps(s, s.(replies := s.replies + [frame]));
      case ProviderTakes => WakeSlotKeeps(s, s);
      case ProviderExits => WakeSlotKeeps(s, s.(closed := true));
    }
  }

  // ---------------------------------------------------------------------------
  // Every answer belongs to its request
  // ---------------------------------------------------------------------------

  /** Request numbers are used once, and what was asked under them is on record. */
  ghost predicate Numbered(s: State) {
    && (forall id <- s.asked :: id < s.nextId)
    && (forall p: nat :: s.PhaseOf(p) != Outside ==> s.PhaseOf(p).id < s.nextId)
    && (forall p: nat, q: nat ::
          s.PhaseOf(p) != Outside && s.PhaseOf(q) != Outside && s.PhaseOf(p).id == s.PhaseOf(q).id ==> p == q)
    && (forall p: nat :: s.PhaseOf(p).Locking? ==> s.PhaseOf(p).id !in s.asked)
    && (forall p: nat :: s.PhaseOf(p).Receiving? ==>
          s.PhaseOf(p).id in s.asked && s.asked[s.PhaseOf(p).id] == s.PhaseOf(p).body)
  }

  /** A provider that echoes the number of the request it answers. */
  predicate Echoes(asked: map<nat, Body>, answer: Body -> Body, frame: Frame) {
    frame.Frame? ==> frame.id in asked && frame.body == answer(asked[frame.id])
  }

  ghost predicate AllEcho(s: State, answer: Body -> Body) {
    forall f <- s.replies :: Echoes(s.asked, answer, f)
  }

  /** The client an action is about. */
  predicate Acts(a: Action, p: nat) {
    match a
    case Begin(q, _) => p == q
    case PollLock(q, _, _) => p == q
    case PollReceive(q, _) => p == q
    case Abandon(q) => p == q
    case _ => false
  }

  lemma ReleasePhase(s: State, p: nat, q: nat)
    ensures Release(s, p).PhaseOf(q) == if q == p then Outside else s.PhaseOf(q)
  {
  }

  lemma WakeSlotPhase(s: State, q: nat)
    ensures WakeSlot(s).PhaseOf(q) == s.PhaseOf(q)
  {
  }

  /** Only the acting client changes phase, and only to the next one or out. */
  lemma PhaseEffect(s: State, a: Action, s': State, out: Option<Outcome>, p: nat)
    requires Step(s, a, s', out)
    ensures !Acts(a, p) ==> s'.PhaseOf(p) == s.PhaseOf(p)
    ensures Acts(a, p) && s'.PhaseOf(p) != Outside ==>
              if a.Begin? then s'.PhaseOf(p) == Locking(s.nextId, a.body)
              else && s.PhaseOf(p) != Outside
                   && s'.PhaseOf(p).id == s.PhaseOf(p).id && s'.PhaseOf(p).body == s.PhaseOf(p).body
  {
    hide Release, WakeSlot;
    match a {
      case Begin(q, body) =>
      case PollLock(q, again, fails) => ReleasePhase(s, q, p);
      case PollReceive(q, again) =>
        ReleasePhase(s, q, p);
        if s.replies != [] { ReleasePhase(s.(replies := s.replies[1..]), q, p); }
      case Abandon(q) => ReleasePhase(s, q, p);
      case SendClose(body) =>
      case ProviderReplies(frame) => WakeSlotPhase(s.(replies := s.replies + [frame]), p);
      case ProviderTakes => WakeSlotPhase(s, p);
      case ProviderExits => WakeSlotPhase(s.(closed := true), p);
    }
  }

  /** The record of what was asked only grows, by the request sent. */
  lemma AskedEffect(s: State, a: Action, s': State, out: Option<Outcome>)
    requires Step(s, a, s', out)
    ensures s'.nextId == (if a.Begin? || a.SendClose? then s.nextId + 1 else s.nextId)
    ensures s'.asked == (if a.SendClose? then s.asked[s.nextId := a.body]
                         else if a.PollLock? && s'.PhaseOf(a.pid).Receiving?
                         then s.asked[s.PhaseOf(a.pid).id := s.PhaseOf(a.pid).body]
                         else s.asked)
    ensures a.PollLock? ==> s.PhaseOf(a.pid).Locking?
    ensures a.PollReceive? ==> s.PhaseOf(a.pid).Receiving?
  {
  }

  lemma PhaseNumbered(s: State, a: Action, s': State, out: Option<Outcome>, p: nat)
    requires Numbered(s) && Step(s, a, s', out)
    ensures s'.PhaseOf(p) != Outside ==> s'.PhaseOf(p).id < s'.nextId
    ensures s'.PhaseOf(p).Locking? ==> s'.PhaseOf(p).id !in s'.asked
    ensures s'.PhaseOf(p).Receiving? ==>
              s'.PhaseOf(p).id in s'.asked && s'.asked[s'.PhaseOf(p).id] == s'.PhaseOf(p).body
  {
    PhaseEffect(s, a, s', out, p);
    AskedEffect(s, a, s', out);
  }

  lemma StepKeepsNumbered(s: State, a: Action, s': State, out: Option<Outcome>)
    requires Numbered(s) && Step(s, a, s', out)
    ensures Numbered(s')
  {
    hide Step;
    AskedEffect(s, a, s', out);
    forall p: nat, q: nat | s'.PhaseOf(p) != Outside && s'.PhaseOf(q) != Outside && s'.PhaseOf(p).id == s'.PhaseOf(q).id
      ensures p == q
    {
      PhaseEffect(s, a, s', out, p);
      PhaseEffect(s, a, s', out, q);
    }
    forall p: nat
      ensures s'.PhaseOf(p) != Outside ==> s'.PhaseOf(p).id < s'.nextId
      ensures s'.PhaseOf(p).Locking? ==> s'.PhaseOf(p).id !in s'.asked
      ensures s'.PhaseOf(p).Receiving? ==>
                s'.PhaseOf(p).id in s'.asked && s'.asked[s'.PhaseOf(p).id] == s'.PhaseOf(p).body
    {
      PhaseNumbered(s, a, s', out, p);
    }
  }

  lemma StepKeepsEcho(s: State, a: Action, s': State, out: Option<Outcome>, answer: Body -> Body)
    requires Numbered(s) && AllEcho(s, answer) && Step(s, a, s', out)
    requires a.ProviderReplies? ==> Echoes(s.asked, answer, a.frame)
    ensures AllEcho(s', answer)
  {
  }

  /** A call returns only a frame with its own number; from an echoing provider that is
      the answer to this very request, whatever was queued ahead of it. */
  lemma AnswerIsMine(s: State, a: Action, s': State, out: Option<Outcome>, answer: Body -> Body)
    requires Numbered(s) && Step(s, a, s', out) && out.Some? && out.value.Answer?
    ensures a.PollReceive? && s.PhaseOf(a.pid).Receiving?
    ensures out.value.frame.Frame? && out.value.frame.id == s.PhaseOf(a.pid).id
    ensures AllEcho(s, answer) ==> out.value.frame.body == answer(s.PhaseOf(a.pid).body)
  {
    if AllEcho(s, answer) { assert Echoes(s.asked, answer, s.replies[0]); }
  }

  // ---------------------------------------------------------------------------
  // Runs
  // ---------------------------------------------------------------------------

  ghost predicate IsRun(run: seq<State>, acts: seq<Action>, outs: seq<Option<Outcome>>, answer: Body -> Body) {
    && |run| == |acts| + 1 && |outs| == |acts|
    && Exclusive(run[0]) && Numbered(run[0]) && AllEcho(run[0], answer)
    && forall i :: 0 <= i < |acts| ==>
         && Step(run[i], acts[i], run[i + 1], outs[i])
         && (acts[i].ProviderReplies? ==> Echoes(run[i].asked, answer, acts[i].frame))
  }

  /** A provider that was just registered. */
  lemma InitialInv(answer: Body -> Body)
    ensures var s := State(map[], false, None, [], None, [], false, 1, map[]);
            Exclusive(s) && Numbered(s) && AllEcho(s, answer)
  {
  }

  lemma {:induction false} RunInv(run: seq<State>, acts: seq<Action>, outs: seq<Option<Outcome>>, answer: Body -> Body,
                                  n: nat)
    requires IsRun(run, acts, outs, answer) && n < |run|
    ensures Exclusive(run[n]) && Numbered(run[n]) && AllEcho(run[n], answer)
  {
    hide Exclusive, Numbered, AllEcho, Echoes, Step;
    if n > 0 {
      RunInv(run, acts, outs, answer, n - 1);
      StepKeepsExclusive(run[n - 1], acts[n - 1], run[n], outs[n - 1]);
      StepKeepsNumbered(run[n - 1], acts[n - 1], run[n], outs[n - 1]);
      StepKeepsEcho(run[n - 1], acts[n - 1], run[n], outs[n - 1], answer);
    }
  }

  /** On any run with an echoing provider, every answer returned is the right one. */
  lemma RunAnswers(run: seq<State>, acts: seq<Action>, outs: seq<Option<Outcome>>, answer: Body -> Body, n: nat)
    requires IsRun(run, acts, outs, answer) && n < |acts| && outs[n].Some? && outs[n].value.Answer?
    ensures acts[n].PollReceive? && run[n].PhaseOf(acts[n].pid).Receiving?
    ensures outs[n].value.frame == Frame(run[n].PhaseOf(acts[n].pid).id, answer(run[n].PhaseOf(acts[n].pid).body))
  {
    RunInv(run, acts, outs, answer, n);
    AnswerIsMine(run[n], acts[n], run[n + 1], outs[n], answer);
  }
}
