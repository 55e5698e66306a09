/** The echo server's shared counters (Mini Project 27-1-26/EchoServer.c): one thread per session,
    the sections under the lock and each statement outside it as atomic steps, over all interleavings. */
module EchoServer {
  import opened Options
  import opened Texts
  import Numerals

  const MAX_SOCKETS: nat := 100
  const NO_FD: int := -1

  /** A used entry of `cfds`. */
  datatype Slot = Slot(fd: int, count: nat, ip: string)

  datatype Reply = Reply(user: nat, total: nat)

  /** Where a thread stands: before `addOrUpdateUser`, in recvall but about to call recv, inside recv, between
      receiving a message and counting it, between counting and reading the counters, between closing its
      descriptor and clearing its slot, or finished. */
  datatype Pc = Registering | Receiving | Waiting | Counting | Reading | Closing | Finished

  datatype Session = Session(fd: int, ip: string, pc: Pc, pos: nat, replies: seq<Reply>)

  /** The shared state and the threads; `counted` is the address of each message counted so far, and `closed`
      are the descriptors closed so far. */
  datatype State = State(
    slots: seq<Slot>, total: nat, sessions: map<nat, Session>, counted: seq<string>, closed: set<int>)

  // ---------- the locked sections ----------

  /** The slot of an address, or the number of slots. */
  function SlotOf(slots: seq<Slot>, ip: string): (i: nat)
    ensures i <= |slots|
    ensures i < |slots| ==> slots[i].ip == ip
  {
    if slots == [] || slots[0].ip == ip then 0 else 1 + SlotOf(slots[1..], ip)
  }

  lemma {:induction false} SlotOfFirst(slots: seq<Slot>, ip: string, j: nat)
    requires j < SlotOf(slots, ip)
    ensures slots[j].ip != ip
  {
    if j > 0 {
      SlotOfFirst(slots[1..], ip, j - 1);
    }
  }

  /** `addOrUpdateUser`: a known address keeps its slot and its count. */
  function Register(slots: seq<Slot>, fd: int, ip: string): seq<Slot> {
    var i := SlotOf(slots, ip);
    if i < |slots| then slots[i := slots[i].(fd := fd)] else slots + [Slot(fd, 0, ip)]
  }

  /** The descriptor of the session before, which `addOrUpdateUser` shuts down and closes. */
  function Evicted(slots: seq<Slot>, ip: string): set<int> {
    var i := SlotOf(slots, ip);
    if i < |slots| && slots[i].fd != NO_FD then {slots[i].fd} else {}
  }

  function Count(slots: seq<Slot>, pos: nat): seq<Slot>
    requires pos < |slots|
  {
    slots[pos := slots[pos].(count := slots[pos].count + 1)]
  }

  function Hangup(slots: seq<Slot>, pos: nat): seq<Slot>
    requires pos < |slots|
  {
    slots[pos := slots[pos].(fd := NO_FD)]
  }

  // ---------- steps ----------

  /** Accepted: a new thread.  Registered, Counted, Answered: its locked sections.  Waits: it calls recv on a
      descriptor that is open.  Piece: recv got part of a message.  Received: it got the rest.  Closed: the message
      was "exit", or recv returned 0, and the thread closes its descriptor.  Cleared: it clears its slot. */
  datatype Step =
    | Accepted(t: nat, fd: int, ip: string)
    | Registered(t: nat)
    | Waits(t: nat)
    | Piece(t: nat)
    | Received(t: nat)
    | Counted(t: nat)
    | Answered(t: nat)
    | Closed(t: nat)
    | Cleared(t: nat)

  predicate Enabled(s: State, st: Step) {
    match st
    case Accepted(t, _, _) => t !in s.sessions
    case Registered(t) => t in s.sessions && s.sessions[t].pc == Registering
    case Waits(t) => t in s.sessions && s.sessions[t].pc == Receiving && s.sessions[t].fd !in s.closed
    case Piece(t) => t in s.sessions && s.sessions[t].pc == Waiting
    case Received(t) => t in s.sessions && s.sessions[t].pc == Waiting
    case Counted(t) => t in s.sessions && s.sessions[t].pc == Counting && s.sessions[t].pos < |s.slots|
    case Answered(t) => t in s.sessions && s.sessions[t].pc == Reading && s.sessions[t].pos < |s.slots|
    case Closed(t) => t in s.sessions && s.sessions[t].pc == Waiting
    case Cleared(t) => t in s.sessions && s.sessions[t].pc == Closing && s.sessions[t].pos < |s.slots|
  }

  function SetPc(s: State, t: nat, pc: Pc): State
    requires t in s.sessions
  {
    s.(sessions := s.sessions[t := s.sessions[t].(pc := pc)])
  }

  function Next(s: State, st: Step): State
    requires Enabled(s, st)
  {
    match st
    case Accepted(t, fd, ip) => s.(sessions := s.sessions[t := Session(fd, ip, Registering, 0, [])])
    case Registered(t) =>
      var x := s.sessions[t];
      s.(slots := Register(s.slots, x.fd, x.ip), closed := s.closed + Evicted(s.slots, x.ip),
        sessions := s.sessions[t := x.(pc := Receiving, pos := SlotOf(s.slots, x.ip))])
    case Waits(t) => SetPc(s, t, Waiting)
    case Piece(t) => SetPc(s, t, Receiving)
    case Received(t) => SetPc(s, t, Counting)
    case Counted(t) =>
      var x := s.sessions[t];
      SetPc(s.(slots := Count(s.slots, x.pos), total := s.total + 1, counted := s.counted + [x.ip]), t, Reading)
    case Answered(t) =>
      var x := s.sessions[t];
      var replies := x.replies + [Reply(s.slots[x.pos].count, s.total)];
      s.(sessions := s.sessions[t := x.(pc := Receiving, replies := replies)])
    case Closed(t) => SetPc(s.(closed := s.closed + {s.sessions[t].fd}), t, Closing)
    case Cleared(t) => SetPc(s.(slots := Hangup(s.slots, s.sessions[t].pos)), t, Finished)
  }

  // ---------- the invariant ----------

  function Sum(slots: seq<Slot>): nat {
    if slots == [] then 0 else slots[0].count + Sum(slots[1..])
  }

  ghost predicate Distinct(slots: seq<Slot>) {
    forall i, j | 0 <= i < j < |slots| :: slots[i].ip != slots[j].ip
  }

  /** Each slot has counted exactly the messages of its address, over all its sessions. */
  ghost predicate Matches(slots: seq<Slot>, counted: seq<string>) {
    forall i | 0 <= i < |slots| :: slots[i].count == Times(counted, slots[i].ip)
  }

  ghost predicate Known(slots: seq<Slot>, counted: seq<string>) {
    forall k | 0 <= k < |counted| :: SlotOf(slots, counted[k]) < |slots|
  }

  /** The total is the sum over the slots; addresses are distinct; and the counts are the messages'. */
  ghost predicate CountsOk(s: State) {
    && s.total == Sum(s.slots) == |s.counted|
    && Distinct(s.slots) && Matches(s.slots, s.counted) && Known(s.slots, s.counted)
  }

  /** A thread's replies: never more for the user than in total, and both counts strictly grow. */
  ghost predicate RepliesOk(x: Session) {
    && (forall k | 0 <= k < |x.replies| :: x.replies[k].user <= x.replies[k].total)
    && (forall k, l | 0 <= k < l < |x.replies| ::
      x.replies[k].total < x.replies[l].total && x.replies[k].user < x.replies[l].user)
  }

  ghost predicate SessionOk(s: State, x: Session) {
    && RepliesOk(x)
    && (x.pc != Registering ==> x.pos < |s.slots| && s.slots[x.pos].ip == x.ip)
    && (x.pc == Registering ==> x.replies == [])
    && (x.replies != [] ==>
          var last := x.replies[|x.replies| - 1];
          if x.pc == Reading then last.total < s.total && last.user < s.slots[x.pos].count
          else last.total <= s.total && last.user <= s.slots[x.pos].count)
  }

  ghost predicate Inv(s: State) {
    CountsOk(s) && forall t | t in s.sessions :: SessionOk(s, s.sessions[t])
  }

  // ---------- every step ----------

  lemma {:induction false} SumUpdate(slots: seq<Slot>, i: nat, x: Slot)
    requires i < |slots|
    ensures Sum(slots[i := x]) == Sum(slots) - slots[i].count + x.count
    ensures slots[i].count <= Sum(slots)
  {
    if i == 0 {
      assert slots[0 := x][1..] == slots[1..];
    } else {
      assert slots[i := x][1..] == slots[1..][i - 1 := x];
      SumUpdate(slots[1..], i - 1, x);
    }
  }

  lemma {:induction false} SumAppend(slots: seq<Slot>, x: Slot)
    ensures Sum(slots + [x]) == Sum(slots) + x.count
  {
    if slots == [] {
      assert slots + [x] == [x];
    } else {
      assert (slots + [x])[1..] == slots[1..] + [x];
      SumAppend(slots[1..], x);
    }
  }

  lemma {:induction false} TimesNone(ips: seq<string>, ip: string)
    requires forall k | 0 <= k < |ips| :: ips[k] != ip
    ensures Times(ips, ip) == 0
  {
    if ips != [] {
      TimesNone(ips[..|ips| - 1], ip);
    }
  }

  /** Where an address is found depends on the addresses alone, and is its one place. */
  lemma {:induction false} SlotOfAt(slots: seq<Slot>, ip: string, i: nat)
    requires i < |slots| && slots[i].ip == ip
    ensures SlotOf(slots, ip) <= i
  {
    if i > 0 && slots[0].ip != ip {
      SlotOfAt(slots[1..], ip, i - 1);
    }
  }

  /** Same addresses, perhaps one more: everything registered stays registered. */
  ghost predicate Keeps(slots: seq<Slot>, slots': seq<Slot>) {
    |slots| <= |slots'| && forall i | 0 <= i < |slots| ::
      slots'[i].ip == slots[i].ip && slots'[i].count >= slots[i].count
  }

  lemma KeepsRegistered(slots: seq<Slot>, slots': seq<Slot>, ip: string)
    requires Keeps(slots, slots') && SlotOf(slots, ip) < |slots|
    ensures SlotOf(slots', ip) < |slots'|
  {
    SlotOfAt(slots', ip, SlotOf(slots, ip));
  }

  /** A step of one thread leaves the others as they were. */
  lemma OthersOk(s: State, s': State, x: Session)
    requires SessionOk(s, x) && Keeps(s.slots, s'.slots) && s.total <= s'.total
    ensures SessionOk(s', x)
  {
  }

  lemma KnownStays(slots: seq<Slot>, slots': seq<Slot>, counted: seq<string>)
    requires Known(slots, counted) && Keeps(slots, slots')
    ensures Known(slots', counted)
  {
    hide Keeps;
    forall k | 0 <= k < |counted| ensures SlotOf(slots', counted[k]) < |slots'| {
      KeepsRegistered(slots, slots', counted[k]);
    }
  }

  /** An address that is not in the table yet. */
  lemma NewAddress(slots: seq<Slot>, counted: seq<string>, ip: string)
    requires Known(slots, counted) && SlotOf(slots, ip) == |slots|
    ensures forall j | 0 <= j < |slots| :: slots[j].ip != ip
    ensures Times(counted, ip) == 0
  {
    forall j | 0 <= j < |slots| ensures slots[j].ip != ip {
      SlotOfFirst(slots, ip, j);
    }
    TimesNone(counted, ip);
  }

  lemma RegisterOk(s: State, fd: int, ip: string)
    requires CountsOk(s)
    ensures CountsOk(s.(slots := Register(s.slots, fd, ip))) && Keeps(s.slots, Register(s.slots, fd, ip))
    ensures SlotOf(s.slots, ip) < |Register(s.slots, fd, ip)| && Register(s.slots, fd, ip)[SlotOf(s.slots, ip)].ip == ip
  {
    hide Times, Sum, SlotOf, Known;
    var i := SlotOf(s.slots, ip);
    var slots' := Register(s.slots, fd, ip);
    if i < |s.slots| {
      SumUpdate(s.slots, i, s.slots[i].(fd := fd));
    } else {
      SumAppend(s.slots, Slot(fd, 0, ip));
      NewAddress(s.slots, s.counted, ip);
    }
    KnownStays(s.slots, slots', s.counted);
  }

  lemma CountOk(s: State, pos: nat)
    requires CountsOk(s) && pos < |s.slots|
    ensures CountsOk(s.(slots := Count(s.slots, pos), total := s.total + 1, counted := s.counted + [s.slots[pos].ip]))
    ensures Keeps(s.slots, Count(s.slots, pos))
  {
    hide Times, Sum, SlotOf, Known;
    var slots', ip := Count(s.slots, pos), s.slots[pos].ip;
    SumUpdate(s.slots, pos, slots'[pos]);
    forall i | 0 <= i < |slots'| ensures slots'[i].count == Times(s.counted + [ip], slots'[i].ip) {
      TimesAppend(s.counted, ip, slots'[i].ip);
    }
    KnownStays(s.slots, slots', s.counted);
    KnownMore(slots', s.counted, pos);
  }

  lemma KnownMore(slots: seq<Slot>, counted: seq<string>, pos: nat)
    requires Known(slots, counted) && pos < |slots|
    ensures Known(slots, counted + [slots[pos].ip])
  {
    SlotOfAt(slots, slots[pos].ip, pos);
  }

  lemma HangupOk(s: State, pos: nat)
    requires CountsOk(s) && pos < |s.slots|
    ensures CountsOk(s.(slots := Hangup(s.slots, pos))) && Keeps(s.slots, Hangup(s.slots, pos))
  {
    hide Times, Sum, Known;
    SumUpdate(s.slots, pos, s.slots[pos].(fd := NO_FD));
    KnownStays(s.slots, Hangup(s.slots, pos), s.counted);
  }

  /** An answer: its user count is part of the total, and both exceed those of the answer before. */
  lemma AnswerOk(s: State, x: Session)
    requires CountsOk(s) && SessionOk(s, x) && x.pc == Reading
    ensures SessionOk(s, x.(pc := Receiving, replies := x.replies + [Reply(s.slots[x.pos].count, s.total)]))
  {
    SumUpdate(s.slots, x.pos, s.slots[x.pos]);
    if x.replies != [] {
      var last := x.replies[|x.replies| - 1];
      assert forall k | 0 <= k < |x.replies| :: x.replies[k].total <= last.total && x.replies[k].user <= last.user;
    }
  }

  lemma StepOk(s: State, st: Step)
    requires Inv(s) && Enabled(s, st)
    ensures Inv(Next(s, st)) && Keeps(s.slots, Next(s, st).slots)
  {
    var s' := Next(s, st);
    StepCounts(s, st);
    OwnOk(s, st);
    OnlyOwn(s, st);
    hide CountsOk, Keeps, SessionOk, Next, Enabled;
    forall t | t in s'.sessions && t != st.t ensures SessionOk(s', s'.sessions[t]) {
      OthersOk(s, s', s.sessions[t]);
    }
  }

  /** A step changes no thread but its own. */
  lemma OnlyOwn(s: State, st: Step)
    requires Enabled(s, st)
    ensures forall t | t in Next(s, st).sessions && t != st.t ::
      t in s.sessions && Next(s, st).sessions[t] == s.sessions[t]
  {
  }

  lemma StepCounts(s: State, st: Step)
    requires Inv(s) && Enabled(s, st)
    ensures CountsOk(Next(s, st)) && Keeps(s.slots, Next(s, st).slots) && s.total <= Next(s, st).total
  {
    match st
    case Registered(t) => RegisterOk(s, s.sessions[t].fd, s.sessions[t].ip);
    case Counted(t) =>
      assert SessionOk(s, s.sessions[t]);
      CountOk(s, s.sessions[t].pos);
    case Cleared(t) => HangupOk(s, s.sessions[t].pos);
    case _ =>
  }

  /** A thread whose replies do not change, in a table that keeps what it has; one that has just counted is
      ahead of its last reply. */
  lemma RepliesKept(s: State, s': State, x: Session, x': Session)
    requires SessionOk(s, x) && Keeps(s.slots, s'.slots) && s.total <= s'.total && x.pc != Reading
    requires x'.replies == x.replies && x'.ip == x.ip && x'.pc != Registering
    requires x'.pos < |s'.slots| && s'.slots[x'.pos].ip == x.ip
    requires x.replies != [] ==> x'.pos == x.pos
    requires x'.pc == Reading ==>
      x.pc != Registering && s.total < s'.total && x'.pos == x.pos && s.slots[x.pos].count < s'.slots[x.pos].count
    ensures SessionOk(s', x')
  {
  }

  /** The thread that made the step. */
  lemma OwnOk(s: State, st: Step)
    requires Inv(s) && Enabled(s, st)
    ensures SessionOk(Next(s, st), Next(s, st).sessions[st.t])
  {
    var s' := Next(s, st);
    StepCounts(s, st);
    if st.Accepted? {
      return;
    }
    var x, x' := s.sessions[st.t], s'.sessions[st.t];
    assert SessionOk(s, x);
    if st.Answered? {
      AnswerOk(s, x);
    } else {
      if st.Registered? { RegisterOk(s, x.fd, x.ip); }
      assert x'.pos < |s'.slots| && s'.slots[x'.pos].ip == x.ip;
      hide RepliesOk, CountsOk, SlotOf, Register, Keeps;
      RepliesKept(s, s', x, x');
    }
  }

  // ---------- every run ----------

  const START := State([], 0, map[], [], {})

  ghost predicate IsRun(states: seq<State>, steps: seq<Step>) {
    && |states| == |steps| + 1 && states[0] == START
    && forall k | 0 <= k < |steps| :: Enabled(states[k], steps[k]) && states[k + 1] == Next(states[k], steps[k])
  }

  /** Over all interleavings of any number of threads. */
  lemma {:induction false} RunOk(states: seq<State>, steps: seq<Step>, k: nat)
    requires IsRun(states, steps) && k < |states|
    ensures Inv(states[k])
  {
    if k > 0 {
      RunOk(states, steps, k - 1);
      hide Inv, Next;
      StepOk(states[k - 1], steps[k - 1]);
    }
  }

  /** What clients see, in any run: a reply never counts more for the user than in total, and the
      replies of one session have strictly increasing totals. */
  lemma RepliesInOrder(states: seq<State>, steps: seq<Step>, k: nat, t: nat, i: nat, j: nat)
    requires IsRun(states, steps) && k < |states| && t in states[k].sessions
    requires i < j < |states[k].sessions[t].replies|
    ensures var r := states[k].sessions[t].replies;
      r[i].user <= r[i].total < r[j].total && r[i].user < r[j].user <= r[j].total
  {
    RunOk(states, steps, k);
    assert SessionOk(states[k], states[k].sessions[t]);
  }

  /** The moments before `k` at which a message was counted, and those of one address. */
  ghost function CountedAt(steps: seq<Step>, k: nat): (js: set<nat>)
    requires k <= |steps|
  {
    set j: nat | j < k && steps[j].Counted?
  }

  ghost function CountedOf(states: seq<State>, steps: seq<Step>, k: nat, ip: string): (js: set<nat>)
    requires k <= |steps| < |states|
  {
    set j: nat | j < k && steps[j].Counted?
                 && steps[j].t in states[j].sessions && states[j].sessions[steps[j].t].ip == ip
  }

  lemma {:induction false} CountedInRun(states: seq<State>, steps: seq<Step>, k: nat, ip: string)
    requires IsRun(states, steps) && k < |states|
    ensures |states[k].counted| == |CountedAt(steps, k)|
    ensures Times(states[k].counted, ip) == |CountedOf(states, steps, k, ip)|
  {
    if k == 0 {
      assert CountedAt(steps, 0) == {} && CountedOf(states, steps, 0, ip) == {};
    } else {
      hide Next, Enabled, Times;
      CountedInRun(states, steps, k - 1, ip);
      CountedNext(states[k - 1], steps[k - 1], ip);
      MomentsNext(states, steps, k, ip);
    }
  }

  lemma MomentsNext(states: seq<State>, steps: seq<Step>, k: nat, ip: string)
    requires 0 < k <= |steps| < |states|
    ensures |CountedAt(steps, k)| == |CountedAt(steps, k - 1)| + if steps[k - 1].Counted? then 1 else 0
    ensures var s, st := states[k - 1], steps[k - 1];
      |CountedOf(states, steps, k, ip)| == |CountedOf(states, steps, k - 1, ip)|
        + if st.Counted? && st.t in s.sessions && s.sessions[st.t].ip == ip then 1 else 0
  {
    var s, st := states[k - 1], steps[k - 1];
    var own := st.Counted? && st.t in s.sessions && s.sessions[st.t].ip == ip;
    OneMoment(CountedAt(steps, k - 1), CountedAt(steps, k), k - 1, st.Counted?);
    OneMoment(CountedOf(states, steps, k - 1, ip), CountedOf(states, steps, k, ip), k - 1, own);
  }

  lemma OneMoment(before: set<nat>, after: set<nat>, k: nat, more: bool)
    requires k !in before && forall j :: j in after <==> j in before || (more && j == k)
    ensures |after| == |before| + if more then 1 else 0
  {
    assert after == before + if more then {k} else {};
  }

  lemma CountedNext(s: State, st: Step, ip: string)
    requires Enabled(s, st)
    ensures st.Counted? ==> st.t in s.sessions
    ensures Next(s, st).counted == if st.Counted? then s.counted + [s.sessions[st.t].ip] else s.counted
    ensures Times(Next(s, st).counted, ip)
         == Times(s.counted, ip) + if st.Counted? && s.sessions[st.t].ip == ip then 1 else 0
  {
    if st.Counted? {
      TimesAppend(s.counted, s.sessions[st.t].ip, ip);
    }
  }

  /** A reply says how many messages have been counted by then, and how many of them from its own address; and no
      other step adds one. */
  lemma ReplyExactly(states: seq<State>, steps: seq<Step>, k: nat, t: nat)
    requires IsRun(states, steps) && k < |steps| && t in states[k].sessions
    ensures var x := states[k].sessions[t];
      && t in states[k + 1].sessions
      && states[k + 1].sessions[t].replies
         == x.replies + if steps[k] == Answered(t)
                        then [Reply(|CountedOf(states, steps, k, x.ip)|, |CountedAt(steps, k)|)] else []
  {
    RunOk(states, steps, k);
    CountedInRun(states, steps, k, states[k].sessions[t].ip);
    assert SessionOk(states[k], states[k].sessions[t]);
    ReplyNext(states[k], steps[k], t);
    hide Next, Enabled;
  }

  lemma ReplyNext(s: State, st: Step, t: nat)
    requires Inv(s) && Enabled(s, st) && t in s.sessions
    ensures t in Next(s, st).sessions
    ensures Next(s, st).sessions[t].replies
         == s.sessions[t].replies
            + if st == Answered(t) then [Reply(Times(s.counted, s.sessions[t].ip), |s.counted|)] else []
  {
    var x := s.sessions[t];
    assert x.replies + [] == x.replies;
    if st == Answered(t) {
      assert SessionOk(s, x);
      hide RepliesOk, Times, Sum, SlotOf, Known;
      assert s.slots[x.pos].count == Times(s.counted, x.ip);
    } else {
      hide Inv, SessionOk;
    }
  }

  // ---------- room in the table ----------

  function Addresses(slots: seq<Slot>): set<string> {
    if slots == [] then {} else {slots[0].ip} + Addresses(slots[1..])
  }

  lemma {:induction false} AddressIn(slots: seq<Slot>, ip: string)
    ensures ip in Addresses(slots) <==> exists i :: 0 <= i < |slots| && slots[i].ip == ip
  {
    if slots != [] {
      AddressIn(slots[1..], ip);
      if i :| 0 <= i < |slots[1..]| && slots[1..][i].ip == ip {
        assert slots[i + 1].ip == ip;
      }
      if i :| 0 <= i < |slots| && slots[i].ip == ip {
        assert i > 0 ==> slots[1..][i - 1].ip == ip;
      }
    }
  }

  lemma {:induction false} DistinctCount(slots: seq<Slot>)
    requires forall i, j | 0 <= i < j < |slots| :: slots[i].ip != slots[j].ip
    ensures |Addresses(slots)| == |slots|
  {
    if slots != [] {
      DistinctCount(slots[1..]);
      AddressIn(slots[1..], slots[0].ip);
    }
  }

  lemma Larger(a: set<string>, b: set<string>)
    requires a <= b
    ensures |a| <= |b|
  {
    if a != b {
      assert b == a + (b - a);
    }
  }

  /** `addOrUpdateUser` writes inside `cfds` exactly while the addresses, with the one that connects,
      are at most MAX_SOCKETS; the next new one is stored one past the end. */
  lemma RoomExactly(s: State, ip: string)
    requires CountsOk(s) && |s.slots| <= MAX_SOCKETS
    ensures SlotOf(s.slots, ip) < 100 <==> |Addresses(s.slots) + {ip}| <= 100
  {
    AddressIn(s.slots, ip);
    DistinctCount(s.slots);
    if SlotOf(s.slots, ip) == |s.slots| {
      forall j | 0 <= j < |s.slots| ensures s.slots[j].ip != ip {
        SlotOfFirst(s.slots, ip, j);
      }
      assert ip !in Addresses(s.slots);
      assert |Addresses(s.slots) + {ip}| == |s.slots| + 1;
    } else {
      assert Addresses(s.slots) + {ip} == Addresses(s.slots);
    }
  }

  /** With at most MAX_SOCKETS addresses in all, every run stays inside the table. */
  lemma {:induction false} TableFits(states: seq<State>, steps: seq<Step>, k: nat, universe: set<string>)
    requires IsRun(states, steps) && k < |states| && |universe| <= 100
    requires forall m | 0 <= m < |steps| && steps[m].Accepted? :: steps[m].ip in universe
    ensures |states[k].slots| <= 100
    ensures forall t | t in states[k].sessions :: states[k].sessions[t].ip in universe
    ensures Addresses(states[k].slots) <= universe
  {
    RunOk(states, steps, k);
    DistinctCount(states[k].slots);
    if k > 0 {
      TableFits(states, steps, k - 1, universe);
      AddressesAfter(states[k - 1], steps[k - 1], universe);
    }
    Larger(Addresses(states[k].slots), universe);
  }

  lemma AddressesAfter(s: State, st: Step, universe: set<string>)
    requires Enabled(s, st) && Addresses(s.slots) <= universe
    requires forall t | t in s.sessions :: s.sessions[t].ip in universe
    ensures Addresses(Next(s, st).slots) <= universe
  {
    forall ip | ip in Addresses(Next(s, st).slots)
      ensures ip in universe
    {
      AddressIn(Next(s, st).slots, ip);
      var i :| 0 <= i < |Next(s, st).slots| && Next(s, st).slots[i].ip == ip;
      if i < |s.slots| {
        AddressIn(s.slots, s.slots[i].ip);
        assert s.slots[i].ip == ip;
      }
    }
  }

  lemma RunMore(states: seq<State>, steps: seq<Step>, st: Step)
    requires IsRun(states, steps) && Enabled(states[|steps|], st)
    ensures IsRun(states + [Next(states[|steps|], st)], steps + [st])
  {
    hide Enabled, Next;
  }

  function Address(i: nat): string {
    "10.0.0." + Numerals.Text(i, 10)
  }

  lemma AddressesDiffer(i: nat, j: nat)
    ensures Address(i) == Address(j) <==> i == j
  {
    Numerals.TextReadsBack(i, 10);
    Numerals.TextReadsBack(j, 10);
    assert Address(i)[7..] == Numerals.Text(i, 10) && Address(j)[7..] == Numerals.Text(j, 10);
  }

  /** `n` clients with different addresses have logged in, one after the other. */
  function LoggedIn(n: nat): State {
    State(seq(n, (i: nat) => Slot(i, 0, Address(i))), 0,
      map t: nat | t < n :: Session(t, Address(t), Receiving, t, []), [], {})
  }

  lemma OneMore(n: nat)
    ensures var s, in0, in1 := LoggedIn(n), Accepted(n, n, Address(n)), Registered(n);
      && Enabled(s, in0) && Enabled(Next(s, in0), in1)
      && SlotOf(s.slots, Address(n)) == n == |s.slots|
      && Next(Next(s, in0), in1) == LoggedIn(n + 1)
  {
    var s, in0, in1 := LoggedIn(n), Accepted(n, n, Address(n)), Registered(n);
    forall i | 0 <= i < n ensures s.slots[i].ip != Address(n) {
      AddressesDiffer(i, n);
    }
    hide Address;
    var s2 := Next(Next(s, in0), in1);
    assert s2.slots == LoggedIn(n + 1).slots;
    assert s2.sessions == LoggedIn(n + 1).sessions;
  }

  lemma {:induction false} Logins(n: nat) returns (states: seq<State>, steps: seq<Step>)
    ensures IsRun(states, steps) && states[|steps|] == LoggedIn(n)
  {
    if n == 0 {
      states, steps := [START], [];
      assert LoggedIn(0).sessions == map[];
    } else {
      states, steps := Logins(n - 1);
      OneMore(n - 1);
      hide LoggedIn, Next, Enabled;
      var in0, in1 := Accepted(n - 1, n - 1, Address(n - 1)), Registered(n - 1);
      RunMore(states, steps, in0);
      states, steps := states + [Next(states[|steps|], in0)], steps + [in0];
      RunMore(states, steps, in1);
      states, steps := states + [Next(states[|steps|], in1)], steps + [in1];
    }
  }

  /** A run in which one client too many is stored behind the table. */
  lemma TableOverflows() returns (states: seq<State>, steps: seq<Step>)
    ensures IsRun(states, steps) && |steps| > 0
    ensures var s, st := states[|steps| - 1], steps[|steps| - 1];
      st.Registered? && SlotOf(s.slots, s.sessions[st.t].ip) == 100 &&
        |states[|steps|].slots| == 101
  {
    states, steps := Logins(MAX_SOCKETS);
    OneMore(MAX_SOCKETS);
    var s := LoggedIn(MAX_SOCKETS);
    var in0, in1 := Accepted(MAX_SOCKETS, MAX_SOCKETS, Address(MAX_SOCKETS)), Registered(MAX_SOCKETS);
    assert Next(s, in0).slots == s.slots && Next(s, in0).sessions[MAX_SOCKETS].ip == Address(MAX_SOCKETS);
    assert |LoggedIn(MAX_SOCKETS + 1).slots| == MAX_SOCKETS + 1;
    hide LoggedIn, Next, Enabled, Address;
    RunMore(states, steps, in0);
    states, steps := states + [Next(states[|steps|], in0)], steps + [in0];
    RunMore(states, steps, in1);
    states, steps := states + [Next(states[|steps|], in1)], steps + [in1];
  }

  // ---------- whose descriptor a slot holds ----------

  predicate Live(x: Session) {
    x.pc != Registering && x.pc != Finished
  }

  /** A slot's descriptor, unless it has been cleared, is that of a session of the slot that has not finished. */
  ghost predicate FdsOk(s: State) {
    forall i | 0 <= i < |s.slots| && s.slots[i].fd != NO_FD :: OwnedBy(s, i)
  }

  predicate Owns(s: State, t: nat, i: nat)
    requires i < |s.slots|
  {
    t in s.sessions && Live(s.sessions[t]) && s.sessions[t].pos == i && s.sessions[t].fd == s.slots[i].fd
  }

  ghost predicate OwnedBy(s: State, i: nat)
    requires i < |s.slots|
  {
    exists t :: Owns(s, t, i)
  }

  lemma OwnsStays(s: State, st: Step, t: nat, i: nat)
    requires Enabled(s, st) && i < |s.slots| && Owns(s, t, i) && !Touches(s, st, i)
    ensures i < |Next(s, st).slots| && Owns(Next(s, st), t, i)
  {
  }

  lemma OwnsNow(s: State, st: Step, i: nat)
    requires Inv(s) && Enabled(s, st) && Touches(s, st, i)
    requires i < |Next(s, st).slots| && Next(s, st).slots[i].fd != NO_FD
    ensures Owns(Next(s, st), st.t, i)
  {
    hide CountsOk;
  }

  lemma FdsKept(s: State, st: Step)
    requires Inv(s) && FdsOk(s) && Enabled(s, st)
    ensures FdsOk(Next(s, st))
  {
    var s' := Next(s, st);
    hide Inv, Next, Enabled, Touches, Owns;
    forall i | 0 <= i < |s'.slots| && s'.slots[i].fd != NO_FD ensures OwnedBy(s', i) {
      if Touches(s, st, i) {
        OwnsNow(s, st, i);
      } else {
        SlotKept(s, st, i);
        assert OwnedBy(s, i);
        var t :| Owns(s, t, i);
        OwnsStays(s, st, t, i);
      }
    }
  }

  /** The step writes the descriptor of slot `p`: a login to it, or a session of it that clears it. */
  predicate Touches(s: State, st: Step, p: nat)
    requires Enabled(s, st)
  {
    || (st.Registered? && SlotOf(s.slots, s.sessions[st.t].ip) == p)
    || (st.Cleared? && s.sessions[st.t].pos == p)
  }

  lemma SlotKept(s: State, st: Step, p: nat)
    requires Enabled(s, st) && !Touches(s, st, p)
    ensures p < |Next(s, st).slots| <==> p < |s.slots|
    ensures p < |s.slots| ==> Next(s, st).slots[p].fd == s.slots[p].fd
  {
  }

  lemma {:induction false} FdsLive(states: seq<State>, steps: seq<Step>, k: nat)
    requires IsRun(states, steps) && k < |states|
    ensures FdsOk(states[k])
  {
    if k > 0 {
      FdsLive(states, steps, k - 1);
      RunOk(states, steps, k - 1);
      hide Inv, Next, FdsOk;
      FdsKept(states[k - 1], steps[k - 1]);
    }
  }

  /** No two clients get the same descriptor, and none gets the one that says there is none. */
  ghost predicate FdsDiffer(steps: seq<Step>) {
    && (forall k | 0 <= k < |steps| && steps[k].Accepted? :: steps[k].fd != NO_FD)
    && (forall j, k | 0 <= j < k < |steps| && steps[j].Accepted? && steps[k].Accepted? :: steps[j].fd != steps[k].fd)
  }

  /** Each session's descriptor is the one it was accepted with. */
  lemma {:induction false} AcceptedWith(states: seq<State>, steps: seq<Step>, k: nat, t: nat) returns (j: nat)
    requires IsRun(states, steps) && k < |states| && t in states[k].sessions
    ensures j < k && steps[j] == Accepted(t, states[k].sessions[t].fd, states[k].sessions[t].ip)
  {
    var s, st := states[k - 1], steps[k - 1];
    if st.Accepted? && st.t == t {
      j := k - 1;
    } else {
      j := AcceptedWith(states, steps, k - 1, t);
    }
  }

  lemma OtherFd(states: seq<State>, steps: seq<Step>, k: nat, t: nat, u: nat)
    requires IsRun(states, steps) && FdsDiffer(steps) && k < |states|
    requires t in states[k].sessions && u in states[k].sessions
    ensures states[k].sessions[t].fd != NO_FD
    ensures t != u ==> states[k].sessions[t].fd != states[k].sessions[u].fd
  {
    var i := AcceptedWith(states, steps, k, t);
    var j := AcceptedWith(states, steps, k, u);
  }

  /** One step, as far as the descriptor of session `t` in its slot is concerned. */
  lemma FdStep(s: State, st: Step, t: nat)
    requires Enabled(s, st) && t in s.sessions && !st.Accepted? && (st.Registered? ==> st.t != t)
    requires var x := s.sessions[t]; x.pos < |s.slots| && x.fd != NO_FD
    requires st.t in s.sessions && (st.t != t ==> s.sessions[st.t].fd != s.sessions[t].fd)
    ensures var x, s' := s.sessions[t], Next(s, st);
      && x.pos < |s'.slots|
      && (s'.slots[x.pos].fd == x.fd <==> s.slots[x.pos].fd == x.fd && !Touches(s, st, x.pos))
  {
  }

  /** No step from `i` on, before `k`, wrote the descriptor of slot `p`. */
  ghost predicate Untouched(states: seq<State>, steps: seq<Step>, i: nat, k: nat, p: nat)
    requires IsRun(states, steps) && k < |states|
  {
    forall j | i <= j < k :: !Touches(states[j], steps[j], p)
  }

  lemma UntouchedStep(states: seq<State>, steps: seq<Step>, i: nat, k: nat, p: nat)
    requires IsRun(states, steps) && i <= k < |steps|
    ensures Untouched(states, steps, i, k + 1, p)
      <==> Untouched(states, steps, i, k, p) && !Touches(states[k], steps[k], p)
  {
    hide Touches, Next;
  }

  lemma StepIs(states: seq<State>, steps: seq<Step>, k: nat)
    requires IsRun(states, steps) && k < |steps|
    ensures Enabled(states[k], steps[k]) && states[k + 1] == Next(states[k], steps[k])
  {
    hide Enabled, Next;
  }

  lemma AcceptedKeeps(s: State, st: Step)
    requires Enabled(s, st) && st.Accepted?
    ensures Next(s, st).slots == s.slots && forall p :: !Touches(s, st, p)
  {
  }

  lemma OwnSession(s: State, st: Step)
    requires Enabled(s, st) && !st.Accepted?
    ensures st.t in s.sessions
  {
  }

  lemma NotAgain(s: State, st: Step, t: nat)
    requires Enabled(s, st) && t in s.sessions && s.sessions[t].pc != Registering
    ensures st.Registered? ==> st.t != t
  {
  }

  lemma FdAtLogin(s: State, st: Step)
    requires Inv(s) && Enabled(s, st) && st.Registered?
    ensures var x := Next(s, st).sessions[st.t]; x.pos < |Next(s, st).slots| && Next(s, st).slots[x.pos].fd == x.fd
  {
    hide Inv;
  }

  /** The descriptor of the session that logged in at step `i`, at moment `k`. */
  ghost predicate FdAt(states: seq<State>, steps: seq<Step>, i: nat, k: nat)
    requires IsRun(states, steps) && i < k < |states| && steps[i].Registered?
  {
    var t := steps[i].t;
    && t in states[k].sessions && var x := states[k].sessions[t];
      && x.pos < |states[k].slots|
      && (states[k].slots[x.pos].fd == x.fd <==> Untouched(states, steps, i + 1, k, x.pos))
  }

  lemma FdAtFirst(states: seq<State>, steps: seq<Step>, i: nat)
    requires IsRun(states, steps) && FdsDiffer(steps) && i + 1 < |states| && steps[i].Registered?
    ensures FdAt(states, steps, i, i + 1)
  {
    assert |states| == |steps| + 1;
    hide *;
    StepIs(states, steps, i);
    RunOk(states, steps, i);
    FdAtLogin(states[i], steps[i]);
    RegisteredStays(states, steps, i, i + 1);
    UntouchedNone(states, steps, i + 1, states[i + 1].sessions[steps[i].t].pos);
    FdIs(states, steps, i, i + 1);
  }

  lemma FdIs(states: seq<State>, steps: seq<Step>, i: nat, k: nat)
    requires IsRun(states, steps) && i < k < |states| && steps[i].Registered?
    requires var t := steps[i].t; t in states[k].sessions && states[k].sessions[t].pos < |states[k].slots|
    ensures var x := states[k].sessions[steps[i].t];
      FdAt(states, steps, i, k) <==> (states[k].slots[x.pos].fd == x.fd <==> Untouched(states, steps, i + 1, k, x.pos))
  {
    hide IsRun, Untouched;
  }

  lemma FdAtNext(states: seq<State>, steps: seq<Step>, i: nat, k: nat)
    requires IsRun(states, steps) && FdsDiffer(steps) && i < k < |steps| && steps[i].Registered?
    requires FdAt(states, steps, i, k)
    ensures FdAt(states, steps, i, k + 1)
  {
    assert |states| == |steps| + 1;
    hide *;
    FdAfter(states, steps, i, k);
    FdIs(states, steps, i, k);
    FdIs(states, steps, i, k + 1);
  }

  lemma {:induction false} FdAlways(states: seq<State>, steps: seq<Step>, i: nat, k: nat)
    requires IsRun(states, steps) && FdsDiffer(steps) && i < k < |states| && steps[i].Registered?
    ensures FdAt(states, steps, i, k)
    decreases k
  {
    assert |states| == |steps| + 1;
    hide *;
    if k == i + 1 {
      FdAtFirst(states, steps, i);
    } else {
      FdAlways(states, steps, i, k - 1);
      FdAtNext(states, steps, i, k - 1);
    }
  }

  /** A session that logged in at step `i`: its slot holds its descriptor at a later moment if and only if no step
      in between was a login to that slot, or a session of that slot clearing it. An old session that leaves clears
      the descriptor of the one that followed it. */
  lemma FdExactly(states: seq<State>, steps: seq<Step>, i: nat, k: nat)
    requires IsRun(states, steps) && FdsDiffer(steps) && i < k < |states| && steps[i].Registered?
    ensures var t := steps[i].t;
      && t in states[k].sessions && var x := states[k].sessions[t];
        && x.pos < |states[k].slots|
        && (states[k].slots[x.pos].fd == x.fd <==> Untouched(states, steps, i + 1, k, x.pos))
  {
    FdAlways(states, steps, i, k);
    hide IsRun, Untouched;
  }

  lemma UntouchedNone(states: seq<State>, steps: seq<Step>, k: nat, p: nat)
    requires IsRun(states, steps) && k < |states|
    ensures Untouched(states, steps, k, k, p)
  {
  }

  lemma PosInside(states: seq<State>, steps: seq<Step>, i: nat, k: nat)
    requires IsRun(states, steps) && i < k < |states| && steps[i].Registered?
    ensures var t := steps[i].t; t in states[k].sessions && states[k].sessions[t].pos < |states[k].slots|
  {
    RunOk(states, steps, k);
    RegisteredStays(states, steps, i, k);
    hide IsRun, CountsOk;
    assert SessionOk(states[k], states[k].sessions[steps[i].t]);
  }

  /** The step from moment `k` to the next. */
  lemma FdAfter(states: seq<State>, steps: seq<Step>, i: nat, k: nat)
    requires IsRun(states, steps) && FdsDiffer(steps) && i < k < |steps| && steps[i].Registered?
    ensures var t := steps[i].t;
      && t in states[k].sessions && t in states[k + 1].sessions
      && var x, y := states[k].sessions[t], states[k + 1].sessions[t];
        && x.pos == y.pos && x.fd == y.fd && x.pos < |states[k].slots| && x.pos < |states[k + 1].slots|
        && Enabled(states[k], steps[k])
        && var touched := Touches(states[k], steps[k], x.pos);
          && (states[k + 1].slots[x.pos].fd == x.fd <==> states[k].slots[x.pos].fd == x.fd && !touched)
          && (Untouched(states, steps, i + 1, k + 1, x.pos) <==> Untouched(states, steps, i + 1, k, x.pos) && !touched)
  {
    assert |states| == |steps| + 1;
    hide *;
    var t := steps[i].t;
    var s, st := states[k], steps[k];
    PosInside(states, steps, i, k);
    PosInside(states, steps, i, k + 1);
    RegisteredStays(states, steps, i, k);
    RegisteredStays(states, steps, i, k + 1);
    StepIs(states, steps, k);
    OtherFd(states, steps, k, t, t);
    if st.Accepted? {
      AcceptedKeeps(s, st);
    } else {
      OwnSession(s, st);
      OtherFd(states, steps, k, t, st.t);
      NotAgain(s, st, t);
      FdStep(s, st, t);
    }
    UntouchedStep(states, steps, i + 1, k, s.sessions[t].pos);
  }

  lemma {:induction false} RegisteredStays(states: seq<State>, steps: seq<Step>, i: nat, k: nat)
    requires IsRun(states, steps) && i < k < |states| && steps[i].Registered?
    ensures var t := steps[i].t; var y := states[i + 1].sessions[t];
      && t in states[k].sessions && var x := states[k].sessions[t];
        x.pc != Registering && x.pos == y.pos && x.fd == y.fd
    decreases k
  {
    if k > i + 1 {
      RegisteredStays(states, steps, i, k - 1);
    }
  }

  // ---------- which descriptors are open ----------

  /** A session is registered with an open descriptor, and its slot's descriptor is open as long as it has not
      closed it itself. */
  predicate HeldOk(s: State, x: Session) {
    && (x.pc == Registering ==> x.fd !in s.closed)
    && (Live(x) && x.pos < |s.slots| && s.slots[x.pos].fd == x.fd ==> (x.fd in s.closed <==> x.pc == Closing))
  }

  /** Every session has a descriptor of its own, and only descriptors of sessions have been closed. */
  ghost predicate Apart(s: State) {
    && (forall t | t in s.sessions :: s.sessions[t].fd != NO_FD)
    && (forall t, u | t in s.sessions && u in s.sessions && t != u :: s.sessions[t].fd != s.sessions[u].fd)
    && (forall fd | fd in s.closed :: exists t :: t in s.sessions && s.sessions[t].fd == fd)
  }

  ghost predicate HeldAll(s: State) {
    forall t | t in s.sessions :: HeldOk(s, s.sessions[t])
  }

  /** A login closes the descriptor of a session that has not finished, of that slot. */
  lemma EvictedOwner(s: State, ip: string)
    requires FdsOk(s) && Evicted(s.slots, ip) != {}
    ensures exists t :: Owns(s, t, SlotOf(s.slots, ip)) && Evicted(s.slots, ip) == {s.sessions[t].fd}
  {
    var i := SlotOf(s.slots, ip);
    assert OwnedBy(s, i);
    var t :| Owns(s, t, i);
    assert Evicted(s.slots, ip) == {s.sessions[t].fd};
  }

  /** What a step closes: the descriptor in the slot of a login, or that of the session itself. */
  lemma ClosedBy(s: State, st: Step, t: nat)
    requires Inv(s) && Enabled(s, st) && FdsOk(s) && Apart(s) && t in s.sessions
    ensures var x := s.sessions[t];
      x.fd in Next(s, st).closed <==>
        || x.fd in s.closed
        || st == Closed(t)
        || (st.Registered? && Live(x) && x.pos < |s.slots| && s.slots[x.pos].fd == x.fd && Touches(s, st, x.pos))
  {
    hide Inv;
    if st.Registered? {
      var ip := s.sessions[st.t].ip;
      if Evicted(s.slots, ip) != {} {
        EvictedOwner(s, ip);
        var u :| Owns(s, u, SlotOf(s.slots, ip)) && Evicted(s.slots, ip) == {s.sessions[u].fd};
      }
    }
  }

  lemma HeldKept(s: State, st: Step, t: nat)
    requires Inv(s) && Enabled(s, st) && FdsOk(s) && Apart(s) && Apart(Next(s, st))
    requires t in s.sessions && HeldOk(s, s.sessions[t]) && (t == st.t ==> !st.Accepted?)
    ensures t in Next(s, st).sessions && HeldOk(Next(s, st), Next(s, st).sessions[t])
  {
    ClosedBy(s, st, t);
    if t != st.t {
      OnlyOwn(s, st);
    }
    var x := s.sessions[t];
    if x.pos < |s.slots| && !Touches(s, st, x.pos) {
      SlotKept(s, st, x.pos);
    }
    assert SessionOk(s, x);
    hide FdsOk, CountsOk;
  }
  /** Only descriptors of sessions are ever closed. */
  lemma {:induction false} ClosedOwned(states: seq<State>, steps: seq<Step>, k: nat)
    requires IsRun(states, steps) && k < |states|
    ensures forall fd | fd in states[k].closed :: exists t :: t in states[k].sessions && states[k].sessions[t].fd == fd
  {
    if k > 0 {
      ClosedOwned(states, steps, k - 1);
      FdsLive(states, steps, k - 1);
      hide FdsOk;
      ClosedOwnedStep(states[k - 1], steps[k - 1]);
    }
  }

  lemma ClosedOwnedStep(s: State, st: Step)
    requires Enabled(s, st) && FdsOk(s)
    requires forall fd | fd in s.closed :: exists t :: t in s.sessions && s.sessions[t].fd == fd
    ensures forall fd | fd in Next(s, st).closed ::
      exists t :: t in Next(s, st).sessions && Next(s, st).sessions[t].fd == fd
  {
    var s' := Next(s, st);
    forall fd | fd in s'.closed ensures exists t :: t in s'.sessions && s'.sessions[t].fd == fd {
      if fd in s.closed {
        var t :| t in s.sessions && s.sessions[t].fd == fd;
        assert t in s'.sessions && s'.sessions[t].fd == fd;
      } else if st.Registered? {
        EvictedOwner(s, s.sessions[st.t].ip);
        var t :| Owns(s, t, SlotOf(s.slots, s.sessions[st.t].ip)) && fd == s.sessions[t].fd;
        assert t in s'.sessions && s'.sessions[t].fd == fd;
      } else {
        assert s'.sessions[st.t].fd == fd;
      }
    }
  }

  lemma ApartAlways(states: seq<State>, steps: seq<Step>, k: nat)
    requires IsRun(states, steps) && FdsDiffer(steps) && k < |states|
    ensures Apart(states[k])
  {
    ClosedOwned(states, steps, k);
    hide IsRun, FdsDiffer;
    var s := states[k];
    forall t | t in s.sessions ensures s.sessions[t].fd != NO_FD {
      OtherFd(states, steps, k, t, t);
    }
    forall t, u | t in s.sessions && u in s.sessions && t != u ensures s.sessions[t].fd != s.sessions[u].fd {
      OtherFd(states, steps, k, t, u);
    }
  }

  lemma WasThere(s: State, st: Step, t: nat)
    requires Enabled(s, st) && t in Next(s, st).sessions && !(st.Accepted? && st.t == t)
    ensures t in s.sessions
  {
  }

  lemma HeldNext(states: seq<State>, steps: seq<Step>, k: nat, t: nat)
    requires IsRun(states, steps) && FdsDiffer(steps) && k < |steps| && t in states[k + 1].sessions
    requires t in states[k].sessions ==> HeldOk(states[k], states[k].sessions[t])
    ensures HeldOk(states[k + 1], states[k + 1].sessions[t])
  {
    assert |states| == |steps| + 1;
    hide *;
    StepIs(states, steps, k);
    if steps[k].Accepted? && steps[k].t == t {
      NewIsOpen(states, steps, k);
    } else {
      RunOk(states, steps, k);
      FdsLive(states, steps, k);
      ApartAlways(states, steps, k);
      ApartAlways(states, steps, k + 1);
      WasThere(states[k], steps[k], t);
      HeldKept(states[k], steps[k], t);
    }
  }

  lemma {:induction false} HeldAlways(states: seq<State>, steps: seq<Step>, k: nat, t: nat)
    requires IsRun(states, steps) && FdsDiffer(steps) && k < |states| && t in states[k].sessions
    ensures HeldOk(states[k], states[k].sessions[t])
    decreases k
  {
    assert |states| == |steps| + 1;
    if k > 0 {
      hide *;
      if t in states[k - 1].sessions {
        HeldAlways(states, steps, k - 1, t);
      }
      HeldNext(states, steps, k - 1, t);
    }
  }

  /** A new client's descriptor is open. */
  lemma NewIsOpen(states: seq<State>, steps: seq<Step>, k: nat)
    requires IsRun(states, steps) && FdsDiffer(steps) && k < |steps| && steps[k].Accepted?
    ensures k + 1 < |states|
    ensures var s := states[k + 1]; steps[k].t in s.sessions && HeldOk(s, s.sessions[steps[k].t])
  {
    ClosedOwned(states, steps, k);
    var s, st := states[k], steps[k];
    if st.fd in s.closed {
      var t :| t in s.sessions && s.sessions[t].fd == st.fd;
      var j := AcceptedWith(states, steps, k, t);
      assert false;
    }
  }

  /** In every run, whatever the threads' order: a slot's descriptor, unless cleared, is that of a session of the
      slot that has not finished; and it is open if and only if no session of the slot stands between closing its
      descriptor and clearing the slot while the slot still holds it. */
  lemma OpenExactly(states: seq<State>, steps: seq<Step>, k: nat, i: nat)
    requires IsRun(states, steps) && FdsDiffer(steps) && k < |states| && i < |states[k].slots|
    requires states[k].slots[i].fd != -1
    ensures OwnedBy(states[k], i)
    ensures states[k].slots[i].fd !in states[k].closed
      <==> !exists t :: Owns(states[k], t, i) && states[k].sessions[t].pc == Closing
  {
    var s := states[k];
    FdsLive(states, steps, k);
    hide IsRun, FdsDiffer;
    assert OwnedBy(s, i);
    forall t | Owns(s, t, i) ensures s.slots[i].fd in s.closed <==> s.sessions[t].pc == Closing {
      HeldAlways(states, steps, k, t);
    }
  }

  // ---------- a second login ----------

  /** The thread is about to call recv on a closed descriptor: recvall returns -1, and that ends the server. */
  predicate Fails(s: State, t: nat) {
    t in s.sessions && s.sessions[t].pc == Receiving && s.sessions[t].fd in s.closed
  }

  /** It can do nothing else, and no other thread can help it. */
  lemma FailsForGood(s: State, st: Step, t: nat)
    requires Fails(s, t) && Enabled(s, st)
    ensures st.t != t && Fails(Next(s, st), t)
  {
  }

  /** Some login after step `i`, before moment `k`, was the first step since to write the descriptor of slot `p`. */
  ghost predicate LostTo(states: seq<State>, steps: seq<Step>, i: nat, k: nat, p: nat)
    requires IsRun(states, steps) && k < |states|
  {
    exists j :: i < j < k && LosesAt(states, steps, i, j, p)
  }

  ghost predicate LosesAt(states: seq<State>, steps: seq<Step>, i: nat, j: nat, p: nat)
    requires IsRun(states, steps) && j < |steps|
  {
    steps[j].Registered? && Touches(states[j], steps[j], p) && Untouched(states, steps, i + 1, j, p)
  }

  lemma LostStep(states: seq<State>, steps: seq<Step>, i: nat, k: nat, p: nat)
    requires IsRun(states, steps) && i < k < |steps|
    ensures LostTo(states, steps, i, k + 1, p) <==> LostTo(states, steps, i, k, p) || LosesAt(states, steps, i, k, p)
  {
    hide IsRun, LosesAt;
  }

  lemma LostNone(states: seq<State>, steps: seq<Step>, i: nat, p: nat)
    requires IsRun(states, steps) && i + 1 < |states|
    ensures !LostTo(states, steps, i, i + 1, p)
  {
  }

  /** Whether the session that logged in at step `i` has lost its descriptor by moment `k`. */
  ghost predicate ClosedAt(states: seq<State>, steps: seq<Step>, i: nat, k: nat)
    requires IsRun(states, steps) && i < k < |states| && steps[i].Registered?
  {
    var s, t := states[k], steps[i].t;
    && t in s.sessions && var x := s.sessions[t];
      x.pc != Closing && x.pc != Finished ==> (x.fd in s.closed <==> LostTo(states, steps, i, k, x.pos))
  }

  lemma ClosedFirst(states: seq<State>, steps: seq<Step>, i: nat)
    requires IsRun(states, steps) && FdsDiffer(steps) && i + 1 < |states| && steps[i].Registered?
    ensures ClosedAt(states, steps, i, i + 1)
  {
    assert |states| == |steps| + 1;
    var t := steps[i].t;
    FdAtFirst(states, steps, i);
    UntouchedNone(states, steps, i + 1, states[i + 1].sessions[t].pos);
    HeldAlways(states, steps, i + 1, t);
    LostNone(states, steps, i, states[i + 1].sessions[t].pos);
    hide LostTo, Untouched;
    JustRegistered(states, steps, i);
    hide IsRun;
  }

  lemma {:induction false} ClosedAlways(states: seq<State>, steps: seq<Step>, i: nat, k: nat)
    requires IsRun(states, steps) && FdsDiffer(steps) && i < k < |states| && steps[i].Registered?
    ensures ClosedAt(states, steps, i, k)
    decreases k
  {
    assert |states| == |steps| + 1;
    hide *;
    if k == i + 1 {
      ClosedFirst(states, steps, i);
    } else {
      ClosedAlways(states, steps, i, k - 1);
      ClosedAfter(states, steps, i, k - 1);
    }
  }

  /** A session that logged in at step `i` and has not closed its descriptor itself: the descriptor is closed if and
      only if another login from its address has come since, and come first, before any session of the slot cleared
      it.  So a thread ends the server if and only if that has happened by the time it calls recv again. */
  lemma ClosedExactly(states: seq<State>, steps: seq<Step>, i: nat, k: nat)
    requires IsRun(states, steps) && FdsDiffer(steps) && i < k < |states| && steps[i].Registered?
    ensures var s, t := states[k], steps[i].t;
      && t in s.sessions && var x := s.sessions[t];
        && (x.pc != Closing && x.pc != Finished ==>
              (x.fd in s.closed <==> LostTo(states, steps, i, k, x.pos)))
        && (Fails(s, t) <==> x.pc == Receiving && LostTo(states, steps, i, k, x.pos))
  {
    ClosedAlways(states, steps, i, k);
    hide IsRun, LostTo;
  }

  lemma JustRegistered(states: seq<State>, steps: seq<Step>, i: nat)
    requires IsRun(states, steps) && i < |steps| && steps[i].Registered?
    requires var s := states[i + 1]; steps[i].t in s.sessions && HeldOk(s, s.sessions[steps[i].t])
    requires var s := states[i + 1]; var x := s.sessions[steps[i].t]; x.pos < |s.slots| && s.slots[x.pos].fd == x.fd
    ensures var s := states[i + 1]; s.sessions[steps[i].t].fd !in s.closed
  {
  }

  lemma ClosedAfter(states: seq<State>, steps: seq<Step>, i: nat, k: nat)
    requires IsRun(states, steps) && FdsDiffer(steps) && i < k < |steps| && steps[i].Registered?
    requires ClosedAt(states, steps, i, k)
    ensures ClosedAt(states, steps, i, k + 1)
  {
    assert |states| == |steps| + 1;
    hide IsRun, FdsDiffer, LostTo, LosesAt, Untouched, Enabled, Next, Touches, Apart, Inv, FdsOk;
    var s, st, t := states[k], steps[k], steps[i].t;
    RegisteredStays(states, steps, i, k);
    RegisteredStays(states, steps, i, k + 1);
    StepIs(states, steps, k);
    RunOk(states, steps, k);
    FdsLive(states, steps, k);
    ApartAlways(states, steps, k);
    ClosedBy(s, st, t);
    FdExactly(states, steps, i, k);
    LostStep(states, steps, i, k, s.sessions[t].pos);
    LosesIs(states, steps, i, k, s.sessions[t].pos);
    OnTheWay(s, st, t);
  }

  lemma LosesIs(states: seq<State>, steps: seq<Step>, i: nat, j: nat, p: nat)
    requires IsRun(states, steps) && j < |steps|
    ensures Enabled(states[j], steps[j])
    ensures LosesAt(states, steps, i, j, p) <==>
      steps[j].Registered? && Touches(states[j], steps[j], p) && Untouched(states, steps, i + 1, j, p)
  {
    hide Enabled, Touches, Untouched;
  }

  /** A session that has closed its descriptor will only finish. */
  lemma OnTheWay(s: State, st: Step, t: nat)
    requires Enabled(s, st) && t in s.sessions && s.sessions[t].pc != Registering
    ensures t in Next(s, st).sessions
    ensures var x, y := s.sessions[t], Next(s, st).sessions[t];
      y.pc != Closing && y.pc != Finished ==> Live(x) && x.pc != Closing && st != Closed(t)
  {
  }

  // ---------- runs that show it ----------

  /** Two logins from one address, when the first session is not inside recv. */
  function Early(ip: string): seq<Step> {
    [Accepted(0, 3, ip), Registered(0), Accepted(1, 4, ip), Registered(1)]
  }

  function EarlyScenes(ip: string): seq<State> {
    var x0, x1 := Session(3, ip, Receiving, 0, []), Session(4, ip, Receiving, 0, []);
    [START,
     State([], 0, map[0 := x0.(pc := Registering)], [], {}),
     State([Slot(3, 0, ip)], 0, map[0 := x0], [], {}),
     State([Slot(3, 0, ip)], 0, map[0 := x0, 1 := x1.(pc := Registering)], [], {}),
     State([Slot(4, 0, ip)], 0, map[0 := x0, 1 := x1], [], {3})]
  }

  lemma EarlyStep(ip: string, k: nat)
    requires k < 4
    ensures Enabled(EarlyScenes(ip)[k], Early(ip)[k])
    ensures Next(EarlyScenes(ip)[k], Early(ip)[k]) == EarlyScenes(ip)[k + 1]
  {
  }

  /** The first session's next recv ends the server. */
  lemma SecondLoginEnds(ip: string)
    ensures IsRun(EarlyScenes(ip), Early(ip)) && FdsDiffer(Early(ip)) && Fails(EarlyScenes(ip)[4], 0)
  {
    hide Enabled, Next;
    forall k: nat | k < 4
      ensures Enabled(EarlyScenes(ip)[k], Early(ip)[k])
      ensures Next(EarlyScenes(ip)[k], Early(ip)[k]) == EarlyScenes(ip)[k + 1]
    {
      EarlyStep(ip, k);
    }
  }

  /** The first session leaves: it has closed its descriptor when the second logs in, and clears the slot then. */
  function Plan(ip: string): seq<Step> {
    [Accepted(0, 3, ip), Registered(0), Waits(0), Closed(0), Accepted(1, 4, ip), Registered(1), Cleared(0)]
  }

  function Scenes(ip: string): seq<State> {
    var x0, x1 := Session(3, ip, Receiving, 0, []), Session(4, ip, Receiving, 0, []);
    [START,
     State([], 0, map[0 := x0.(pc := Registering)], [], {}),
     State([Slot(3, 0, ip)], 0, map[0 := x0], [], {}),
     State([Slot(3, 0, ip)], 0, map[0 := x0.(pc := Waiting)], [], {}),
     State([Slot(3, 0, ip)], 0, map[0 := x0.(pc := Closing)], [], {3}),
     State([Slot(3, 0, ip)], 0, map[0 := x0.(pc := Closing), 1 := x1.(pc := Registering)], [], {3}),
     State([Slot(4, 0, ip)], 0, map[0 := x0.(pc := Closing), 1 := x1], [], {3}),
     State([Slot(NO_FD, 0, ip)], 0, map[0 := x0.(pc := Finished), 1 := x1], [], {3})]
  }

  lemma SceneStep(ip: string, k: nat)
    requires k < 7
    ensures Enabled(Scenes(ip)[k], Plan(ip)[k]) && Next(Scenes(ip)[k], Plan(ip)[k]) == Scenes(ip)[k + 1]
  {
  }

  /** At moment 5 the slot holds a closed descriptor, which the second login closes again; at the end the slot is
      cleared though the session that last logged in there is live and its descriptor open. */
  lemma OldSessionClears(ip: string)
    ensures IsRun(Scenes(ip), Plan(ip)) && FdsDiffer(Plan(ip))
    ensures var s := Scenes(ip)[5]; s.slots[0].fd in s.closed && Evicted(s.slots, ip) == {s.slots[0].fd}
    ensures var s := Scenes(ip)[7];
      && 1 in s.sessions && Live(s.sessions[1]) && s.sessions[1].fd !in s.closed
      && s.sessions[1].pos < |s.slots| && s.slots[s.sessions[1].pos].fd == -1
  {
    hide Enabled, Next;
    forall k: nat | k < 7
      ensures Enabled(Scenes(ip)[k], Plan(ip)[k]) && Next(Scenes(ip)[k], Plan(ip)[k]) == Scenes(ip)[k + 1]
    {
      SceneStep(ip, k);
    }
  }

  // ---------- the program ----------

  /** The globals `cfds`, `n_sockets` and `total_echo`, accessed under the lock. */
  class Table {
    const cfds: array<Slot>
    var nSockets: nat
    var totalEcho: nat

    constructor ()
      ensures Valid() && Slots() == [] && totalEcho == 0
    {
      cfds := new Slot[MAX_SOCKETS](i => Slot(NO_FD, 0, ""));
      nSockets, totalEcho := 0, 0;
    }

    ghost predicate Valid()
      reads this
    {
      cfds.Length == MAX_SOCKETS && nSockets <= MAX_SOCKETS
    }

    ghost function Slots(): seq<Slot>
      requires Valid()
      reads this, cfds
    {
      cfds[..nSockets]
    }

    /** The slot of the session, and the descriptor that is shut down and closed, or NO_FD; None if the new address
        would be stored behind the table. */
    method AddOrUpdateUser(fd: int, ip: string) returns (res: Option<nat>, evicted: int)
      requires Valid()
      modifies this, cfds
      ensures Valid() && totalEcho == old(totalEcho)
      ensures res.None? <==> SlotOf(old(Slots()), ip) == 100
      ensures res.None? ==> Slots() == old(Slots())
      ensures res.Some? ==> Slots() == Register(old(Slots()), fd, ip) && res.value == SlotOf(old(Slots()), ip)
      ensures if Evicted(old(Slots()), ip) == {} then evicted == -1 else Evicted(old(Slots()), ip) == {evicted}
    {
      ghost var slots := Slots();
      var i := 0;
      evicted := NO_FD;
      while i < nSockets && cfds[i].ip != ip
        invariant i <= nSockets && forall j | 0 <= j < i :: slots[j].ip != ip
      {
        i := i + 1;
      }
      FoundAt(slots, ip, i);
      if i < nSockets {
        evicted := cfds[i].fd;
        cfds[i] := cfds[i].(fd := fd);
        res := Some(i);
      } else if nSockets == MAX_SOCKETS {
        return None, NO_FD;
      } else {
        cfds[nSockets] := Slot(fd, 0, ip);
        res := Some(nSockets);
        nSockets := nSockets + 1;
      }
      assert Slots() == Register(slots, fd, ip);
    }

    /** The first locked section of the session loop. */
    method CountEcho(pos: nat)
      requires Valid() && pos < |Slots()|
      modifies this, cfds
      ensures Valid() && Slots() == Count(old(Slots()), pos) && totalEcho == old(totalEcho) + 1
    {
      cfds[pos] := cfds[pos].(count := cfds[pos].count + 1);
      totalEcho := totalEcho + 1;
    }

    /** The second one. */
    method ReadCounts(pos: nat) returns (r: Reply)
      requires Valid() && pos < |Slots()|
      ensures r == Reply(Slots()[pos].count, totalEcho)
    {
      r := Reply(cfds[pos].count, totalEcho);
    }

    method ClearSlot(pos: nat)
      requires Valid() && pos < |Slots()|
      modifies cfds
      ensures Slots() == Hangup(old(Slots()), pos)
    {
      cfds[pos] := cfds[pos].(fd := NO_FD);
    }
  }

  lemma {:induction false} FoundAt(slots: seq<Slot>, ip: string, i: nat)
    requires i <= |slots| && (forall j | 0 <= j < i :: slots[j].ip != ip) && (i < |slots| ==> slots[i].ip == ip)
    ensures SlotOf(slots, ip) == i
  {
    if i > 0 {
      FoundAt(slots[1..], ip, i - 1);
    }
  }
}
