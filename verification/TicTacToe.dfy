/** Tic-tac-toe between two browsers and a server (TicTacToe/Server/server.c and client.c,
    TicTacToe/Client/scripts.js): the composed system of one match, with messages in flight. */
module TicTacToe {
  import opened Options

  datatype Mark = X | O | Blank

  type Board = b: seq<Mark> | |b| == 9 witness seq(9, i => Blank)

  const EMPTY: Board := [Blank, Blank, Blank, Blank, Blank, Blank, Blank, Blank, Blank]

  // ---------- evaluate_board ----------

  /** Three equal marks, none of them blank. */
  predicate Three(b: Board, i: nat, j: nat, k: nat)
    requires i < 9 && j < 9 && k < 9
  {
    b[i] != Blank && b[i] == b[j] && b[j] == b[k]
  }

  /** Rows, then columns, then diagonals: the mark of the first complete line. */
  function Evaluate(b: Board): (r: Option<Mark>)
    ensures r.Some? ==> r.value != Blank
  {
    if Three(b, 0, 1, 2) then Some(b[0])
    else if Three(b, 3, 4, 5) then Some(b[3])
    else if Three(b, 6, 7, 8) then Some(b[6])
    else if Three(b, 0, 3, 6) then Some(b[0])
    else if Three(b, 1, 4, 7) then Some(b[1])
    else if Three(b, 2, 5, 8) then Some(b[2])
    else if Three(b, 0, 4, 8) then Some(b[0])
    else if Three(b, 2, 4, 6) then Some(b[2])
    else None
  }

  predicate Row(b: Board, r: nat, p: Mark)
    requires r < 3
  {
    b[3 * r] == p && b[3 * r + 1] == p && b[3 * r + 2] == p
  }

  predicate Column(b: Board, c: nat, p: Mark)
    requires c < 3
  {
    b[c] == p && b[c + 3] == p && b[c + 6] == p
  }

  /** `p` fills a row, a column or a diagonal. */
  ghost predicate HasLine(b: Board, p: Mark) {
    || (exists r: nat :: r < 3 && Row(b, r, p))
    || (exists c: nat :: c < 3 && Column(b, c, p))
    || (b[0] == p && b[4] == p && b[8] == p)
    || (b[2] == p && b[4] == p && b[6] == p)
  }

  lemma EvaluateExactly(b: Board)
    ensures Evaluate(b).Some? ==> HasLine(b, Evaluate(b).value)
    ensures Evaluate(b).None? ==> !HasLine(b, X) && !HasLine(b, O)
  {
    match Evaluate(b)
    case Some(p) =>
      assert Row(b, 0, p) || Row(b, 1, p) || Row(b, 2, p) || Column(b, 0, p) || Column(b, 1, p) || Column(b, 2, p)
             || Three(b, 0, 4, 8) || Three(b, 2, 4, 6);
    case None =>
      forall p, r: nat | r < 3 && p != Blank
        ensures !Row(b, r, p) && !Column(b, r, p)
      {
        assert r == 0 || r == 1 || r == 2;
      }
  }

  /** A move on a board without a line can only complete a line of the mover. */
  lemma WinnerMoved(b: Board, k: nat, p: Mark)
    requires Evaluate(b).None? && k < 9 && b[k] == Blank && p != Blank
    ensures Evaluate(b[k := p]).Some? ==> Evaluate(b[k := p]).value == p
  {
  }

  // ---------- messages ----------

  datatype Verdict = Won(winner: Mark) | Draw

  /** The message codes; Move carries the cell, JoinMatch the match number typed in. */
  datatype Code =
    | CreateMatch | JoinMatch(id: int)
    | MatchCreated | MatchJoined | MatchJoinFailed | InitBoard
    | Move(cell: nat) | GameOver(verdict: Verdict)

  datatype Message = Message(matchid: int, player: Mark, code: Code)

  /** A message and the descriptor it is sent to. */
  datatype Sent = Sent(fd: int, message: Message)

  // ---------- the server ----------

  const NO_PLAYER: int := -1

  datatype Match = Match(id: nat, playerX: int, playerO: int, board: Board, moves: nat, players: nat)

  function CreatedMatch(fd: int, id: nat): Match {
    Match(id, fd, NO_PLAYER, EMPTY, 0, 1)
  }

  /** The test JOIN_MATCH makes before it lets the second player in. */
  predicate Joinable(m: Match) {
    m.playerX != NO_PLAYER && m.playerO == NO_PLAYER && m.players != 2
  }

  function Joined(m: Match, fd: int): Match {
    m.(playerO := fd, players := m.players + 1)
  }

  function JoinReplies(m: Match): seq<Sent> {
    [Sent(m.playerO, Message(m.id, O, MatchJoined)),
     Sent(m.playerX, Message(0, X, InitBoard)),
     Sent(m.playerO, Message(0, O, InitBoard))]
  }

  /** The board after a move, what the server sends, and whether the match is over. */
  datatype Moved = Moved(m: Match, sends: seq<Sent>, over: bool)

  function MoveOn(m: Match, matchid: int, p: Mark, k: nat): Moved
    requires k < 9
  {
    var receiver := if p == X then m.playerO else m.playerX;
    var m' := m.(board := m.board[k := p], moves := m.moves + 1);
    var forward := [Sent(receiver, Message(matchid, p, Move(k)))];
    match Evaluate(m'.board)
    case Some(w) => Moved(m', forward + Verdicts(m, matchid, Won(w)), true)
    case None =>
      if m'.moves == 9 then Moved(m', forward + Verdicts(m, matchid, Draw), true) else Moved(m', forward, false)
  }

  function Verdicts(m: Match, matchid: int, v: Verdict): seq<Sent> {
    [Sent(m.playerX, Message(matchid, X, GameOver(v))), Sent(m.playerO, Message(matchid, O, GameOver(v)))]
  }

  // ---------- a browser ----------

  /** The text of each cell's button, whether it is enabled, and the two global variables. */
  datatype Client = Client(cells: Board, enabled: seq<bool>, player: Mark, matchid: int)

  function AllOff(): seq<bool> {
    [false, false, false, false, false, false, false, false, false]
  }

  /** The cells without a text. */
  function Empties(b: Board): (e: seq<bool>)
    ensures |e| == 9
  {
    seq(9, i requires 0 <= i < 9 => b[i] == Blank)
  }

  function Remaining(b: Board, enabled: seq<bool>): (e: seq<bool>)
    requires |enabled| == 9
    ensures |e| == 9
  {
    seq(9, i requires 0 <= i < 9 => b[i] == Blank || enabled[i])
  }

  function EnableRemaining(c: Client): Client
    requires |c.enabled| == 9
  {
    c.(enabled := Remaining(c.cells, c.enabled))
  }

  /** `onmessage`. */
  function Receive(c: Client, msg: Message): Client
    requires |c.enabled| == 9 && (msg.code.Move? ==> msg.code.cell < 9)
  {
    match msg.code
    case MatchCreated => c.(matchid := msg.matchid)
    case MatchJoined => c.(matchid := msg.matchid)
    case Move(k) => EnableRemaining(c.(cells := c.cells[k := msg.player], enabled := c.enabled[k := false]))
    case InitBoard => if c.player == X then EnableRemaining(c) else c
    case GameOver(_) => c.(cells := EMPTY, enabled := AllOff())
    case _ => c
  }

  /** `handleMove`, for a click on an enabled cell. */
  function Click(c: Client, k: nat): (Client, Message)
    requires k < 9 && |c.enabled| == 9
  {
    (c.(cells := c.cells[k := c.player], enabled := AllOff()), Message(c.matchid, c.player, Move(k)))
  }

  // ---------- the composed system ----------

  /** One value for each side. */
  datatype Two<T> = Two(x: T, o: T) {
    function Of(p: Mark): T {
      if p == X then x else o
    }

    function With(p: Mark, v: T): Two<T> {
      if p == X then Two(v, o) else Two(x, v)
    }
  }

  function Other(p: Mark): Mark {
    if p == X then O else X
  }

  /** The match, the two browsers, the messages under way to them and from them, in order; and the
      moves the server has made, as (player, cell). */
  datatype System = System(
    m: Match, clients: Two<Client>, inbox: Two<seq<Message>>, outbox: Two<seq<Message>>, over: bool,
    log: seq<(Mark, nat)>)

  function Deliver(inbox: Two<seq<Message>>, m: Match, sends: seq<Sent>): Two<seq<Message>>
    decreases |sends|
  {
    if sends == [] then inbox
    else
      var p := if sends[0].fd == m.playerX then X else O;
      Deliver(inbox.With(p, inbox.Of(p) + [sends[0].message]), m, sends[1..])
  }

  datatype Step = Clicks(p: Mark, k: nat) | ServerReads(p: Mark) | ClientReads(p: Mark)

  /** A browser fires clicks on enabled buttons only. */
  predicate Enabled(s: System, st: Step) {
    && !s.over && st.p != Blank && |s.clients.x.enabled| == 9 && |s.clients.o.enabled| == 9
    && match st
       case Clicks(p, k) => k < 9 && s.clients.Of(p).enabled[k]
       case ServerReads(p) => s.outbox.Of(p) != [] && s.outbox.Of(p)[0].code.Move? && s.outbox.Of(p)[0].code.cell < 9
       case ClientReads(p) => s.inbox.Of(p) != [] && (s.inbox.Of(p)[0].code.Move? ==> s.inbox.Of(p)[0].code.cell < 9)
  }

  function Next(s: System, st: Step): System
    requires Enabled(s, st)
  {
    match st
    case Clicks(p, k) =>
      var (c, msg) := Click(s.clients.Of(p), k);
      s.(clients := s.clients.With(p, c), outbox := s.outbox.With(p, s.outbox.Of(p) + [msg]))
    case ServerReads(p) =>
      var msg := s.outbox.Of(p)[0];
      var r := MoveOn(s.m, msg.matchid, msg.player, msg.code.cell);
      s.(m := r.m, outbox := s.outbox.With(p, s.outbox.Of(p)[1..]), inbox := Deliver(s.inbox, s.m, r.sends),
         over := r.over, log := s.log + [(msg.player, msg.code.cell)])
    case ClientReads(p) =>
      s.(clients := s.clients.With(p, Receive(s.clients.Of(p), s.inbox.Of(p)[0])),
         inbox := s.inbox.With(p, s.inbox.Of(p)[1..]))
  }

  // ---------- the invariant ----------

  function Filled(b: seq<Mark>): nat {
    if b == [] then 0 else (if b[0] == Blank then 0 else 1) + Filled(b[1..])
  }

  /** Who moves next. */
  function Turn(s: System): Mark {
    if s.m.moves % 2 == 0 then X else O
  }

  /** The n-th move of a match is X's or O's by turns. */
  ghost predicate Alternates(log: seq<(Mark, nat)>) {
    forall i | 0 <= i < |log| :: log[i].0 == if i % 2 == 0 then X else O
  }

  /** The moves are on the board, each in a cell of its own. */
  ghost predicate Recorded(b: Board, log: seq<(Mark, nat)>) {
    && (forall i | 0 <= i < |log| :: log[i].1 < 9 && b[log[i].1] == log[i].0)
    && (forall i, j | 0 <= i < j < |log| :: log[i].1 != log[j].1)
  }

  /** The server's part: strict alternation, every move on an empty cell, and a count that is the
      number of filled cells. */
  ghost predicate MatchOk(s: System) {
    && s.m.playerX != s.m.playerO
    && |s.log| == s.m.moves == Filled(s.m.board) <= 9
    && Alternates(s.log) && Recorded(s.m.board, s.log)
  }

  ghost predicate SetupOnly(msgs: seq<Message>) {
    forall i | 0 <= i < |msgs| :: msgs[i].code in {MatchCreated, MatchJoined, InitBoard}
  }

  ghost predicate Shows(c: Client, b: Board, enabled: seq<bool>, p: Mark) {
    c.cells == b && c.enabled == enabled && c.player == p
  }

  /** Messages a side may still have from before the first move; only O can be that far behind. */
  ghost predicate Backlog(s: System, p: Mark, msgs: seq<Message>) {
    if p == O && s.m.moves <= 1 then SetupOnly(msgs) else msgs == []
  }

  /** X has not read INIT_BOARD yet. */
  ghost predicate Starting(s: System) {
    && s.m.moves == 0 && s.outbox == Two([], [])
    && s.inbox.x != [] && s.inbox.x[|s.inbox.x| - 1].code == InitBoard
    && (forall i | 0 <= i < |s.inbox.x| - 1 :: s.inbox.x[i].code == MatchCreated)
    && SetupOnly(s.inbox.o)
    && Shows(s.clients.x, s.m.board, AllOff(), X) && Shows(s.clients.o, s.m.board, AllOff(), O)
  }

  /** The player whose turn it is can click exactly the empty cells; the other nothing. */
  ghost predicate ToMove(s: System, p: Mark) {
    && p == Turn(s) && s.outbox == Two([], []) && s.inbox.Of(p) == [] && Backlog(s, Other(p), s.inbox.Of(Other(p)))
    && Shows(s.clients.Of(p), s.m.board, Empties(s.m.board), p)
    && Shows(s.clients.Of(Other(p)), s.m.board, AllOff(), Other(p))
  }

  /** A move is on its way to the server; it names an empty cell there. */
  ghost predicate ToServer(s: System, p: Mark, k: nat) {
    && p == Turn(s) && s.inbox.Of(p) == [] && Backlog(s, Other(p), s.inbox.Of(Other(p)))
    && k < 9 && s.m.board[k] == Blank
    && (exists id :: s.outbox == Two([], []).With(p, [Message(id, p, Move(k))]))
    && Shows(s.clients.Of(p), s.m.board[k := p], AllOff(), p)
    && Shows(s.clients.Of(Other(p)), s.m.board, AllOff(), Other(p))
  }

  /** The server has made the move and it is on its way to the opponent, `q`. */
  ghost predicate ToOpponent(s: System, q: Mark, k: nat) {
    && q == Turn(s) && s.outbox == Two([], []) && s.inbox.Of(Other(q)) == []
    && k < 9 && s.m.board[k] == Other(q)
    && s.inbox.Of(q) != [] && Backlog(s, q, s.inbox.Of(q)[..|s.inbox.Of(q)| - 1])
    && (exists id :: s.inbox.Of(q)[|s.inbox.Of(q)| - 1] == Message(id, Other(q), Move(k)))
    && Shows(s.clients.Of(Other(q)), s.m.board, AllOff(), Other(q))
    && Shows(s.clients.Of(q), s.m.board[k := Blank], AllOff(), q)
  }

  /** The match is not over: no line yet, and room left. */
  ghost predicate Ongoing(s: System) {
    !s.over && MatchOk(s) && s.m.moves < 9 && Evaluate(s.m.board).None?
  }

  /** Every moment of a match that is not over is in one of four phases.  In each, both browsers show
      the server's board, up to the one move under way. */
  ghost predicate Inv(s: System) {
    && Ongoing(s)
    && (|| Starting(s)
        || (exists p :: p != Blank && ToMove(s, p))
        || (exists p, k :: p != Blank && ToServer(s, p, k))
        || (exists q, k :: q != Blank && ToOpponent(s, q, k)))
  }

  /** How a match ends: at the latest with move nine, the winner being whoever has just moved. */
  ghost predicate Finished(s: System) {
    s.over && MatchOk(s) && s.log != [] && (WonBy(s, s.log[|s.log| - 1].0) || Drawn(s))
  }

  ghost predicate WonBy(s: System, last: Mark) {
    Evaluate(s.m.board) == Some(last) && HasLine(s.m.board, last) && Announces(s, Won(last))
  }

  ghost predicate Drawn(s: System) {
    && Evaluate(s.m.board) == None && !HasLine(s.m.board, X) && !HasLine(s.m.board, O)
    && s.m.moves == 9 && Announces(s, Draw)
  }

  /** The last message to each player is the same verdict. */
  ghost predicate Announces(s: System, v: Verdict) {
    forall p | p != Blank ::
      s.inbox.Of(p) != [] && s.inbox.Of(p)[|s.inbox.Of(p)| - 1].code == GameOver(v)
  }

  // ---------- every step ----------

  lemma {:induction false} FilledSet(b: seq<Mark>, k: nat, p: Mark)
    requires k < |b| && b[k] == Blank && p != Blank
    ensures Filled(b[k := p]) == Filled(b) + 1
  {
    if k == 0 {
      assert b[0 := p][1..] == b[1..];
    } else {
      assert b[k := p][1..] == b[1..][k - 1 := p];
      FilledSet(b[1..], k - 1, p);
    }
  }

  lemma {:induction false} FilledFull(b: seq<Mark>)
    ensures Filled(b) <= |b|
    ensures Filled(b) == |b| ==> forall i | 0 <= i < |b| :: b[i] != Blank
  {
    if b != [] {
      FilledFull(b[1..]);
      assert forall i | 1 <= i < |b| :: b[i] == b[1..][i - 1];
    }
  }

  /** Reading a message from before the first move changes neither the cells nor, for O, the buttons. */
  lemma SetupRead(c: Client, msg: Message, b: Board)
    requires Shows(c, b, AllOff(), O) && msg.code in {MatchCreated, MatchJoined, InitBoard}
    ensures Shows(Receive(c, msg), b, AllOff(), O)
  {
  }

  /** What does not come from the server changes nothing there. */
  lemma ServerUntouched(s: System, s': System)
    requires Ongoing(s) && s'.m == s.m && s'.log == s.log && s'.over == s.over
    ensures Ongoing(s')
  {
  }

  /** Until X reads INIT_BOARD nothing can happen but reading; then it is X's turn. */
  lemma StartingKept(s: System, st: Step)
    requires Ongoing(s) && Starting(s) && Enabled(s, st)
    ensures st.ClientReads? && Ongoing(Next(s, st))
    ensures if st.p == X && |s.inbox.x| == 1 then ToMove(Next(s, st), X) else Starting(Next(s, st))
  {
    var s' := Next(s, st);
    hide MatchOk, Evaluate;
    ServerUntouched(s, s');
    if st.p == X {
      assert |s.inbox.x| == 1 ==> s'.clients.x.enabled == Empties(s.m.board);
    } else {
      SetupRead(s.clients.o, s.inbox.o[0], s.m.board);
    }
  }

  /** In every later phase the backlog shrinks without changing the phase. */
  lemma BacklogToMove(s: System)
    requires ToMove(s, X) && Enabled(s, ClientReads(O))
    ensures ToMove(Next(s, ClientReads(O)), X)
  {
    SetupRead(s.clients.o, s.inbox.o[0], s.clients.o.cells);
  }

  lemma BacklogToServer(s: System, k: nat)
    requires ToServer(s, X, k) && Enabled(s, ClientReads(O))
    ensures ToServer(Next(s, ClientReads(O)), X, k)
  {
    SetupRead(s.clients.o, s.inbox.o[0], s.clients.o.cells);
  }

  lemma BacklogToOpponent(s: System, k: nat)
    requires ToOpponent(s, O, k) && Enabled(s, ClientReads(O)) && |s.inbox.o| > 1
    ensures ToOpponent(Next(s, ClientReads(O)), O, k)
  {
    var s' := Next(s, ClientReads(O));
    var all := s.inbox.o;
    assert all[0] == all[..|all| - 1][0];
    SetupRead(s.clients.o, all[0], s.clients.o.cells);
    assert s'.inbox.o == all[1..] && all[1..][..|all| - 2] == all[..|all| - 1][1..];
  }

  /** On p's turn only p can click, and only an empty cell: that move goes to the server. */
  lemma ToMoveKept(s: System, p: Mark, st: Step)
    requires Ongoing(s) && p != Blank && ToMove(s, p) && Enabled(s, st)
    ensures Ongoing(Next(s, st))
    ensures st.Clicks? ==> st.p == p && s.m.board[st.k] == Blank && ToServer(Next(s, st), p, st.k)
    ensures !st.Clicks? ==> st == ClientReads(O) && p == X && ToMove(Next(s, st), X)
  {
    hide MatchOk, Evaluate, SetupOnly;
    ServerUntouchedBy(s, st);
    match st
    case Clicks(r, k) =>
      MoveSent(s, p, k);
    case ClientReads(r) =>
      BacklogToMove(s);
  }

  lemma ServerUntouchedBy(s: System, st: Step)
    requires Ongoing(s) && Enabled(s, st) && !st.ServerReads?
    ensures Ongoing(Next(s, st))
  {
    hide MatchOk, Evaluate;
    ServerUntouched(s, Next(s, st));
  }

  lemma MoveSent(s: System, p: Mark, k: nat)
    requires p != Blank && ToMove(s, p) && Enabled(s, Clicks(p, k))
    ensures ToServer(Next(s, Clicks(p, k)), p, k)
  {
    var msg := Message(s.clients.Of(p).matchid, p, Move(k));
    hide SetupOnly;
    assert s.outbox.Of(p) + [msg] == [msg];
    assert Next(s, Clicks(p, k)).outbox == Two([], []).With(p, [msg]);
  }

  /** While a move travels to a player, nothing can happen but that this player reads; behind the
      backlog it is that player's turn. */
  lemma ToOpponentKept(s: System, q: Mark, k: nat, st: Step)
    requires Ongoing(s) && q != Blank && ToOpponent(s, q, k) && Enabled(s, st)
    ensures st == ClientReads(q) && Ongoing(Next(s, st))
    ensures if |s.inbox.Of(q)| == 1 then ToMove(Next(s, st), q) else ToOpponent(Next(s, st), q, k)
  {
    hide Ongoing, Next, Backlog;
    OnlyReads(s, q, k, st);
    ServerUntouchedBy(s, st);
    if |s.inbox.Of(q)| == 1 {
      MoveArrives(s, q, k);
    } else {
      BacklogOnlyO(s, q, k);
      BacklogToOpponent(s, k);
    }
  }

  lemma OnlyReads(s: System, q: Mark, k: nat, st: Step)
    requires q != Blank && ToOpponent(s, q, k) && Enabled(s, st)
    ensures st == ClientReads(q)
  {
    hide Backlog;
  }

  lemma BacklogOnlyO(s: System, q: Mark, k: nat)
    requires q != Blank && ToOpponent(s, q, k) && |s.inbox.Of(q)| != 1
    ensures q == O
  {
  }

  lemma MoveArrives(s: System, q: Mark, k: nat)
    requires q != Blank && ToOpponent(s, q, k) && Enabled(s, ClientReads(q)) && |s.inbox.Of(q)| == 1
    ensures ToMove(Next(s, ClientReads(q)), q)
  {
    var s' := Next(s, ClientReads(q));
    hide SetupOnly;
    assert s'.clients.Of(q).cells == s.m.board;
    assert s'.clients.Of(q).enabled == Empties(s.m.board);
  }

  /** While a move travels to the server, nothing can happen but that the server reads it, or that O
      reads what it had not; the server ends the match rightly, or passes the move on. */
  lemma ToServerKept(s: System, p: Mark, k: nat, st: Step)
    requires Ongoing(s) && p != Blank && ToServer(s, p, k) && Enabled(s, st)
    ensures st == ServerReads(p) || (st == ClientReads(O) && p == X)
    ensures st == ServerReads(p) ==>
      if Next(s, st).over then Finished(Next(s, st)) else Ongoing(Next(s, st)) && ToOpponent(Next(s, st), Other(p), k)
    ensures st == ClientReads(O) ==> Ongoing(Next(s, st)) && ToServer(Next(s, st), p, k)
  {
    hide MatchOk, Evaluate, Next, Finished, ToOpponent, SetupOnly;
    if st == ServerReads(p) {
      MoveMade(s, p, k);
    } else {
      ServerUntouchedBy(s, st);
      BacklogToServer(s, k);
    }
  }

  lemma MoveMade(s: System, p: Mark, k: nat)
    requires Ongoing(s) && p != Blank && ToServer(s, p, k) && Enabled(s, ServerReads(p))
    ensures var s' := Next(s, ServerReads(p));
      if s'.over then Finished(s') else Ongoing(s') && ToOpponent(s', Other(p), k)
  {
    hide Next, Enabled, Finished, ToOpponent, MatchOk, MoveOn, Evaluate;
    var id := MoveAt(s, p, k);
    MatchKept(s, p, k, id);
    NextOnMove(s, p, k, id);
    hide ToServer;
    if Next(s, ServerReads(p)).over {
      Ended(s, p, k, id);
    } else {
      Forwarded(s, p, k, id);
      StillOpen(s.m, id, p, k);
      MatchSame(s.(m := MoveOn(s.m, id, p, k).m, log := s.log + [(p, k)]), Next(s, ServerReads(p)));
    }
  }

  lemma MatchSame(s: System, s': System)
    requires MatchOk(s) && s'.m == s.m && s'.log == s.log
    ensures MatchOk(s')
  {
  }

  lemma MoveAt(s: System, p: Mark, k: nat) returns (id: int)
    requires ToServer(s, p, k)
    ensures s.outbox == Two([], []).With(p, [Message(id, p, Move(k))])
  {
    id :| s.outbox == Two([], []).With(p, [Message(id, p, Move(k))]);
  }

  /** What the server makes of the move. */
  lemma NextOnMove(s: System, p: Mark, k: nat, id: int)
    requires p != Blank && k < 9 && Enabled(s, ServerReads(p))
    requires s.outbox == Two([], []).With(p, [Message(id, p, Move(k))])
    ensures var s', r := Next(s, ServerReads(p)), MoveOn(s.m, id, p, k);
      && s'.m == r.m && s'.over == r.over && s'.log == s.log + [(p, k)] && s'.clients == s.clients
      && s'.outbox == Two([], []) && s'.inbox == Deliver(s.inbox, s.m, r.sends)
  {
    hide MoveOn;
    assert s.outbox.Of(p) == [Message(id, p, Move(k))];
    assert s.outbox.Of(p)[0] == Message(id, p, Move(k)) && s.outbox.Of(p)[1..] == [];
  }

  lemma StillOpen(m: Match, id: int, p: Mark, k: nat)
    requires m.moves < 9 && k < 9 && !MoveOn(m, id, p, k).over
    ensures Evaluate(MoveOn(m, id, p, k).m.board).None? && MoveOn(m, id, p, k).m.moves < 9
    ensures MoveOn(m, id, p, k).m == m.(board := m.board[k := p], moves := m.moves + 1)
    ensures MoveOn(m, id, p, k).sends == [Sent(if p == X then m.playerO else m.playerX, Message(id, p, Move(k)))]
  {
    hide Evaluate;
  }

  /** The move ended the match. */
  lemma Ended(s: System, p: Mark, k: nat, id: int)
    requires Ongoing(s) && p != Blank && k < 9 && s.m.board[k] == Blank && Enabled(s, ServerReads(p))
    requires s.outbox == Two([], []).With(p, [Message(id, p, Move(k))])
    requires Next(s, ServerReads(p)).over
    requires MatchOk(s.(m := MoveOn(s.m, id, p, k).m, log := s.log + [(p, k)]))
    ensures Finished(Next(s, ServerReads(p)))
  {
    var s' := Next(s, ServerReads(p));
    hide Next, MoveOn, Announces, HasLine, Enabled;
    NextOnMove(s, p, k, id);
    var v := VerdictOf(s.m, p, k, id);
    var forward := [Sent(if p == X then s.m.playerO else s.m.playerX, Message(id, p, Move(k)))];
    EvaluateExactly(s'.m.board);
    hide Evaluate;
    assert s'.inbox == Deliver(s.inbox, s.m, forward + Verdicts(s.m, id, v));
    DeliverVerdicts(s.inbox, s.m, forward, id, v);
    Announced(s', v);
  }

  lemma Announced(s: System, v: Verdict)
    requires forall p | p != Blank :: s.inbox.Of(p) != [] && s.inbox.Of(p)[|s.inbox.Of(p)| - 1].code == GameOver(v)
    ensures Announces(s, v)
  {
  }

  /** The verdict on the move that ended the match. */
  lemma VerdictOf(m: Match, p: Mark, k: nat, id: int) returns (v: Verdict)
    requires m.moves < 9 && Evaluate(m.board).None? && p != Blank && k < 9 && m.board[k] == Blank
    requires MoveOn(m, id, p, k).over
    ensures var r := MoveOn(m, id, p, k);
      && r.sends == [Sent(if p == X then m.playerO else m.playerX, Message(id, p, Move(k)))] + Verdicts(m, id, v)
      && ((v == Won(p) && Evaluate(r.m.board) == Some(p)) || (v == Draw && Evaluate(r.m.board).None? && r.m.moves == 9))
  {
    WinnerMoved(m.board, k, p);
    hide Evaluate, Verdicts;
    v := if Evaluate(m.board[k := p]).Some? then Won(p) else Draw;
  }

  /** The last message delivered to each side is the verdict. */
  lemma {:induction false} DeliverVerdicts(inbox: Two<seq<Message>>, m: Match, before: seq<Sent>, id: int, v: Verdict)
    requires m.playerX != m.playerO
    ensures forall p | p != Blank ::
      var msgs := Deliver(inbox, m, before + Verdicts(m, id, v)).Of(p);
      msgs != [] && msgs[|msgs| - 1].code == GameOver(v)
    decreases |before|
  {
    var all := before + Verdicts(m, id, v);
    if before == [] {
      assert all == Verdicts(m, id, v);
      assert all[1..] == [Sent(m.playerO, Message(id, O, GameOver(v)))];
      assert all[1..][1..] == [];
      var one := inbox.With(X, inbox.x + [Message(id, X, GameOver(v))]);
      var two := one.With(O, one.o + [Message(id, O, GameOver(v))]);
      assert Deliver(one, m, all[1..]) == Deliver(two, m, []) == two;
    } else {
      assert all[1..] == before[1..] + Verdicts(m, id, v);
      var p := if all[0].fd == m.playerX then X else O;
      DeliverVerdicts(inbox.With(p, inbox.Of(p) + [all[0].message]), m, before[1..], id, v);
    }
  }

  /** The move is now on its way to the other player. */
  lemma Forwarded(s: System, p: Mark, k: nat, id: int)
    requires Ongoing(s) && p != Blank && ToServer(s, p, k) && Enabled(s, ServerReads(p))
    requires s.outbox == Two([], []).With(p, [Message(id, p, Move(k))])
    requires !Next(s, ServerReads(p)).over
    ensures ToOpponent(Next(s, ServerReads(p)), Other(p), k)
  {
    hide ToOpponent, Evaluate, MoveOn, Next, Enabled;
    NextOnMove(s, p, k, id);
    StillOpen(s.m, id, p, k);
    DeliverOne(s.inbox, s.m, p, Message(id, p, Move(k)));
    hide MatchOk;
    TravelsOn(s, Next(s, ServerReads(p)), p, k, id);
  }

  lemma TravelsOn(s: System, s': System, p: Mark, k: nat, id: int)
    requires p != Blank && ToServer(s, p, k)
    requires s'.m.board == s.m.board[k := p] && s'.m.moves == s.m.moves + 1 && s'.clients == s.clients
    requires s'.outbox == Two([], [])
    requires s'.inbox == s.inbox.With(Other(p), s.inbox.Of(Other(p)) + [Message(id, p, Move(k))])
    ensures ToOpponent(s', Other(p), k)
  {
    var q := Other(p);
    hide SetupOnly;
    assert s'.inbox.Of(q)[..|s'.inbox.Of(q)| - 1] == s.inbox.Of(q);
    assert s'.m.board[k := Blank] == s.m.board;
  }

  lemma DeliverOne(inbox: Two<seq<Message>>, m: Match, p: Mark, msg: Message)
    requires m.playerX != m.playerO && p != Blank
    ensures Deliver(inbox, m, [Sent(if p == X then m.playerO else m.playerX, msg)]) ==
      inbox.With(Other(p), inbox.Of(Other(p)) + [msg])
  {
    assert [Sent(if p == X then m.playerO else m.playerX, msg)][1..] == [];
  }

  /** The server's part of a move. */
  lemma MatchKept(s: System, p: Mark, k: nat, id: int)
    requires MatchOk(s) && s.m.moves < 9 && p == Turn(s) && k < 9 && s.m.board[k] == Blank
    ensures MatchOk(s.(m := MoveOn(s.m, id, p, k).m, log := s.log + [(p, k)]))
  {
    FilledSet(s.m.board, k, p);
    FilledFull(s.m.board[k := p]);
    MovedMatch(s.m, id, p, k);
    hide MoveOn, Filled, Recorded, Alternates;
    RecordedMore(s.m.board, s.log, p, k);
    AlternatesMore(s.log, p, k);
  }

  lemma MovedMatch(m: Match, id: int, p: Mark, k: nat)
    requires k < 9
    ensures MoveOn(m, id, p, k).m == m.(board := m.board[k := p], moves := m.moves + 1)
  {
    hide Evaluate, Verdicts;
  }

  lemma RecordedMore(b: Board, log: seq<(Mark, nat)>, p: Mark, k: nat)
    requires Recorded(b, log) && Alternates(log) && k < 9 && b[k] == Blank
    ensures Recorded(b[k := p], log + [(p, k)])
  {
  }

  lemma AlternatesMore(log: seq<(Mark, nat)>, p: Mark, k: nat)
    requires Alternates(log) && p == if |log| % 2 == 0 then X else O
    ensures Alternates(log + [(p, k)])
  {
  }

  /** One step of the composed system. */
  lemma StepOk(s: System, st: Step)
    requires Inv(s) && Enabled(s, st)
    ensures Next(s, st).over ==> Finished(Next(s, st))
    ensures !Next(s, st).over ==> Inv(Next(s, st))
  {
    hide Next, Enabled, Ongoing, Starting, ToMove, ToServer, ToOpponent, Finished;
    if Starting(s) {
      StartingKept(s, st);
      NotOver(Next(s, st));
    } else if p :| p != Blank && ToMove(s, p) {
      ToMoveKept(s, p, st);
      NotOver(Next(s, st));
    } else if p, k :| p != Blank && ToServer(s, p, k) {
      ToServerKept(s, p, k, st);
      if st.ClientReads? {
        NotOver(Next(s, st));
      }
    } else {
      var q, k :| q != Blank && ToOpponent(s, q, k);
      ToOpponentKept(s, q, k, st);
      NotOver(Next(s, st));
    }
  }

  lemma NotOver(s: System)
    requires Ongoing(s)
    ensures !s.over
  {
  }

  lemma InvNotOver(s: System)
    requires Inv(s)
    ensures !s.over
  {
  }

  /** A run: any interleaving of clicks, server reads and browser reads, until the server ends the
      match. */
  ghost predicate IsRun(states: seq<System>, steps: seq<Step>) {
    && |states| == |steps| + 1 && Inv(states[0])
    && forall k | 0 <= k < |steps| :: Enabled(states[k], steps[k]) && states[k + 1] == Next(states[k], steps[k])
  }

  /** Every state of every run is a match in progress with both browsers in step, or the end of one
      with the right verdict. */
  lemma {:induction false} RunOk(states: seq<System>, steps: seq<Step>, k: nat)
    requires IsRun(states, steps) && k < |states|
    ensures if states[k].over then Finished(states[k]) else Inv(states[k])
  {
    hide Inv, Next, Finished, Enabled;
    if k == 0 {
      InvNotOver(states[0]);
    } else {
      RunOk(states, steps, k - 1);
      assert Enabled(states[k - 1], steps[k - 1]);
      EnabledNotOver(states[k - 1], steps[k - 1]);
      StepOk(states[k - 1], steps[k - 1]);
    }
  }

  lemma EnabledNotOver(s: System, st: Step)
    requires Enabled(s, st)
    ensures !s.over
  {
  }

  /** In particular: the moves alternate, name distinct cells, and number at most nine. */
  lemma MovesAlternate(states: seq<System>, steps: seq<Step>, k: nat)
    requires IsRun(states, steps) && k < |states|
    ensures var s := states[k];
      && |s.log| == s.m.moves == Filled(s.m.board) <= 9
      && (forall i | 0 <= i < |s.log| :: s.log[i].0 == if i % 2 == 0 then X else O)
      && (forall i | 0 <= i < |s.log| :: s.log[i].1 < 9 && s.m.board[s.log[i].1] == s.log[i].0)
      && (forall i, j | 0 <= i < j < |s.log| :: s.log[i].1 != s.log[j].1)
  {
    hide IsRun;
    RunOk(states, steps, k);
  }

  // ---------- nobody waits for nothing ----------

  lemma {:induction false} NotFull(b: seq<Mark>)
    ensures Filled(b) < |b| ==> exists i :: 0 <= i < |b| && b[i] == Blank
  {
    if b != [] {
      NotFull(b[1..]);
      if i :| 0 <= i < |b[1..]| && b[1..][i] == Blank {
        assert b[i + 1] == Blank;
      }
    }
  }

  /** In every phase the one whose turn it is can go on: X reads, a player clicks any empty cell and no other, the
      server reads the move, the other player reads what came. */
  lemma PhasesGoOn(s: System, p: Mark, k: nat)
    requires Ongoing(s) && p != Blank
    ensures Starting(s) ==> Enabled(s, ClientReads(X))
    ensures ToMove(s, p) ==> (Enabled(s, Clicks(p, k)) <==> k < 9 && s.m.board[k] == Blank)
    ensures ToMove(s, p) ==> exists i: nat :: i < 9 && s.m.board[i] == Blank
    ensures ToServer(s, p, k) ==> Enabled(s, ServerReads(p))
    ensures ToOpponent(s, p, k) ==> Enabled(s, ClientReads(p))
  {
    NotFull(s.m.board);
    hide Filled, Evaluate;
    if ToServer(s, p, k) {
      var id := MoveAt(s, p, k);
      assert s.outbox.Of(p) == [Message(id, p, Move(k))];
    }
    if ToOpponent(s, p, k) {
      var all := s.inbox.Of(p);
      if |all| > 1 {
        assert all[0] == all[..|all| - 1][0];
      }
    }
  }

  /** A match in progress can always go on. */
  lemma NeverStuck(s: System)
    requires Inv(s)
    ensures exists st :: Enabled(s, st)
  {
    hide Enabled, Ongoing, Starting, ToMove, ToServer, ToOpponent;
    if Starting(s) {
      PhasesGoOn(s, X, 0);
    } else if p :| p != Blank && ToMove(s, p) {
      PhasesGoOn(s, p, 0);
      var i: nat :| i < 9 && s.m.board[i] == Blank;
      PhasesGoOn(s, p, i);
    } else if p, k :| p != Blank && ToServer(s, p, k) {
      PhasesGoOn(s, p, k);
    } else {
      var q, k :| q != Blank && ToOpponent(s, q, k);
      PhasesGoOn(s, q, k);
    }
  }

  /** What is left of a match: three steps for each move to come, less those done, and what is unread. */
  function Rank(s: System): int {
    3 * (9 - s.m.moves) - |s.outbox.x| - |s.outbox.o| + |s.inbox.x| + |s.inbox.o|
  }

  lemma {:induction false} DeliverCount(inbox: Two<seq<Message>>, m: Match, sends: seq<Sent>)
    ensures var r := Deliver(inbox, m, sends); |r.x| + |r.o| == |inbox.x| + |inbox.o| + |sends|
    decreases |sends|
  {
    if sends != [] {
      var p := if sends[0].fd == m.playerX then X else O;
      DeliverCount(inbox.With(p, inbox.Of(p) + [sends[0].message]), m, sends[1..]);
    }
  }

  lemma RankFalls(s: System, st: Step)
    requires Enabled(s, st) && !Next(s, st).over && s.m.moves < 9
    ensures Rank(Next(s, st)) == Rank(s) - 1
  {
    match st
    case ServerReads(p) =>
      var msg := s.outbox.Of(p)[0];
      StillOpen(s.m, msg.matchid, msg.player, msg.code.cell);
      hide MoveOn;
      DeliverCount(s.inbox, s.m, MoveOn(s.m, msg.matchid, msg.player, msg.code.cell).sends);
    case _ =>
      hide Receive, Evaluate;
  }

  lemma RankLeft(s: System)
    requires Inv(s)
    ensures Rank(s) >= 2 && s.m.moves < 9
  {
    if p, k :| p != Blank && ToServer(s, p, k) {
      var id := MoveAt(s, p, k);
    }
  }

  lemma RankAtStart(s: System)
    ensures s.m.moves == 0 && s.outbox == Two([], []) ==> Rank(s) == 27 + |s.inbox.x| + |s.inbox.o|
  {
  }

  /** Every run ends: after nine clicks, nine of them read by the server and eight by a player, and the reading of
      what lay in the inboxes at the start. */
  lemma {:induction false} RunsEnd(states: seq<System>, steps: seq<Step>, k: nat)
    requires IsRun(states, steps) && k < |states|
    ensures !states[k].over ==> k == Rank(states[0]) - Rank(states[k])
    ensures states[0].m.moves == 0 && states[0].outbox == Two([], []) ==>
              k <= 26 + |states[0].inbox.x| + |states[0].inbox.o|
  {
    hide Inv, Next, Enabled, Rank, Finished;
    RankLeft(states[0]);
    RankAtStart(states[0]);
    if k > 0 {
      RunsEnd(states, steps, k - 1);
      RunOk(states, steps, k - 1);
      var s, st := states[k - 1], steps[k - 1];
      assert Enabled(s, st) && states[k] == Next(s, st);
      EnabledNotOver(s, st);
      RankLeft(s);
      if !states[k].over {
        RankFalls(s, st);
      }
    }
  }

  // ---------- what the messages say ----------

  predicate Introduces(msg: Message) {
    msg.code == MatchCreated || msg.code == MatchJoined
  }

  /** Fit for `p` to read: it names the match, if it names one, and the player whose move or news it is. */
  ghost predicate Addressed(msg: Message, p: Mark, id: int) {
    && (msg.code.Move? ==> msg.code.cell < 9)
    && (msg.code != InitBoard ==> msg.matchid == id)
    && msg.player == if msg.code.Move? then Other(p) else p
  }

  /** A page knows the number of its match, or is about to be told. */
  ghost predicate KnowsMatch(c: Client, msgs: seq<Message>, p: Mark, id: int) {
    && |c.enabled| == 9 && c.player == p
    && (forall i | 0 <= i < |msgs| :: Addressed(msgs[i], p, id))
    && (c.matchid == id || exists i :: 0 <= i < |msgs| && Introduces(msgs[i]))
  }

  ghost predicate Signed(msgs: seq<Message>, p: Mark, id: int) {
    forall i | 0 <= i < |msgs| :: msgs[i].matchid == id && msgs[i].player == p
  }

  ghost predicate SideNamed(s: System, p: Mark) {
    && KnowsMatch(s.clients.Of(p), s.inbox.Of(p), p, s.m.id)
    && Signed(s.outbox.Of(p), p, s.m.id)
  }

  ghost predicate Named(s: System) {
    s.m.playerX != s.m.playerO && SideNamed(s, X) && SideNamed(s, O)
  }

  lemma ReadKnows(c: Client, msgs: seq<Message>, p: Mark, id: int)
    requires msgs != [] && KnowsMatch(c, msgs, p, id)
    ensures KnowsMatch(Receive(c, msgs[0]), msgs[1..], p, id)
  {
    hide Remaining;
    if i :| 0 <= i < |msgs| && Introduces(msgs[i]) {
      assert i > 0 ==> msgs[1..][i - 1] == msgs[i];
    }
  }

  lemma AppendKnows(c: Client, msgs: seq<Message>, p: Mark, id: int, msg: Message)
    requires KnowsMatch(c, msgs, p, id) && Addressed(msg, p, id)
    ensures KnowsMatch(c, msgs + [msg], p, id)
  {
    if i :| 0 <= i < |msgs| && Introduces(msgs[i]) {
      assert (msgs + [msg])[i] == msgs[i];
    }
  }

  ghost predicate GoesTo(m: Match, sent: Sent, p: Mark, id: int) {
    p != Blank && sent.fd == (if p == X then m.playerX else m.playerO) && Addressed(sent.message, p, id)
  }

  /** Every message goes to the player it is for. */
  ghost predicate SendsOk(m: Match, sends: seq<Sent>, id: int) {
    forall i | 0 <= i < |sends| :: GoesTo(m, sends[i], X, id) || GoesTo(m, sends[i], O, id)
  }

  lemma {:induction false} DeliverKnows(clients: Two<Client>, inbox: Two<seq<Message>>, m: Match, sends: seq<Sent>,
                                        id: int, p: Mark)
    requires m.playerX != m.playerO && p != Blank && SendsOk(m, sends, id)
    requires KnowsMatch(clients.x, inbox.x, X, id) && KnowsMatch(clients.o, inbox.o, O, id)
    ensures KnowsMatch(clients.Of(p), Deliver(inbox, m, sends).Of(p), p, id)
    decreases |sends|
  {
    if sends != [] {
      var q := if GoesTo(m, sends[0], X, id) then X else O;
      AppendKnows(clients.Of(q), inbox.Of(q), q, id, sends[0].message);
      hide KnowsMatch, Addressed;
      DeliverKnows(clients, inbox.With(q, inbox.Of(q) + [sends[0].message]), m, sends[1..], id, p);
    }
  }

  lemma MoveSendsOk(m: Match, id: int, p: Mark, k: nat)
    requires p != Blank && k < 9
    ensures SendsOk(m, MoveOn(m, id, p, k).sends, id)
  {
    hide Evaluate;
    var r := MoveOn(m, id, p, k);
    assert GoesTo(m, r.sends[0], Other(p), id);
    if |r.sends| > 1 {
      assert GoesTo(m, r.sends[1], X, id) && GoesTo(m, r.sends[2], O, id);
    }
  }

  /** A player can click only after reading everything. */
  lemma ClickerHasRead(s: System, p: Mark, k: nat)
    requires Inv(s) && Enabled(s, Clicks(p, k))
    ensures s.inbox.Of(p) == []
  {
    hide MatchOk, Evaluate, Backlog, SetupOnly, Empties;
    assert !AllOff()[k];
    if !Starting(s) {
      if q :| q != Blank && ToMove(s, q) {
        assert q == p;
      }
    }
  }

  lemma NamedStep(s: System, st: Step)
    requires Inv(s) && Named(s) && Enabled(s, st)
    ensures Named(Next(s, st))
    ensures st.Clicks? ==> s.clients.Of(st.p).matchid == s.m.id
  {
    var p := st.p;
    if st.Clicks? {
      ClickerHasRead(s, p, st.k);
      ClickNamed(s, p, st.k);
    } else if st.ClientReads? {
      hide Inv, Receive, KnowsMatch;
      assert SideNamed(s, p);
      ReadKnows(s.clients.Of(p), s.inbox.Of(p), p, s.m.id);
      assert SideNamed(Next(s, st), X) && SideNamed(Next(s, st), O);
    } else {
      hide Inv;
      ServedNamed(s, p);
    }
  }

  lemma ClickNamed(s: System, p: Mark, k: nat)
    requires Named(s) && Enabled(s, Clicks(p, k)) && s.inbox.Of(p) == []
    ensures Named(Next(s, Clicks(p, k)))
    ensures s.clients.Of(p).matchid == s.m.id
  {
    assert SideNamed(s, p) && KnowsMatch(s.clients.Of(p), [], p, s.m.id);
    var s' := Next(s, Clicks(p, k));
    hide KnowsMatch;
    if p == X {
      assert SideNamed(s', X) && SideNamed(s', O);
    } else {
      assert SideNamed(s', X) && SideNamed(s', O);
    }
  }

  lemma ServedNamed(s: System, p: Mark)
    requires Named(s) && Enabled(s, ServerReads(p))
    ensures Named(Next(s, ServerReads(p)))
  {
    var s' := Next(s, ServerReads(p));
    var msg := s.outbox.Of(p)[0];
    var k := msg.code.cell;
    assert SideNamed(s, p) && msg.matchid == s.m.id && msg.player == p;
    assert Signed(s'.outbox.x, X, s.m.id) && Signed(s'.outbox.o, O, s.m.id);
    MoveSendsOk(s.m, s.m.id, p, k);
    MovedMatch(s.m, s.m.id, p, k);
    hide MoveOn, KnowsMatch, SendsOk;
    var sends := MoveOn(s.m, s.m.id, p, k).sends;
    assert KnowsMatch(s.clients.x, s.inbox.Of(X), X, s.m.id) && KnowsMatch(s.clients.o, s.inbox.Of(O), O, s.m.id);
    DeliverKnows(s.clients, s.inbox, s.m, sends, s.m.id, X);
    DeliverKnows(s.clients, s.inbox, s.m, sends, s.m.id, O);
    assert SideNamed(s', X) && SideNamed(s', O);
  }

  /** In every run each message names the match and the player it should, and whoever clicks knows the number. */
  lemma {:induction false} NamedInRun(states: seq<System>, steps: seq<Step>, k: nat)
    requires IsRun(states, steps) && k < |states| && Named(states[0])
    ensures Named(states[k])
  {
    if k > 0 {
      NamedInRun(states, steps, k - 1);
      RunOk(states, steps, k - 1);
      hide Inv, Next, Finished, Enabled, Named;
      assert Enabled(states[k - 1], steps[k - 1]);
      EnabledNotOver(states[k - 1], steps[k - 1]);
      NamedStep(states[k - 1], steps[k - 1]);
    }
  }

  // ---------- the end on both pages ----------

  /** The page after it has read `msgs`. */
  function ReadAll(c: Client, msgs: seq<Message>): (r: Client)
    requires |c.enabled| == 9 && forall i | 0 <= i < |msgs| :: msgs[i].code.Move? ==> msgs[i].code.cell < 9
    ensures |r.enabled| == 9
    decreases |msgs|
  {
    if msgs == [] then c else ReadAll(Receive(c, msgs[0]), msgs[1..])
  }

  lemma {:induction false} ReadLast(c: Client, msgs: seq<Message>)
    requires |c.enabled| == 9 && forall i | 0 <= i < |msgs| :: msgs[i].code.Move? ==> msgs[i].code.cell < 9
    requires msgs != []
    ensures var n := |msgs| - 1; ReadAll(c, msgs) == Receive(ReadAll(c, msgs[..n]), msgs[n])
    decreases |msgs|
  {
    var n := |msgs| - 1;
    hide Remaining;
    if n > 0 {
      assert msgs[1..][..n - 1] == msgs[..n][1..] && msgs[1..][n - 1] == msgs[n];
      assert msgs[..n][0] == msgs[0];
      ReadLast(Receive(c, msgs[0]), msgs[1..]);
    }
  }

  lemma {:induction false} ReadAllKnows(c: Client, msgs: seq<Message>, p: Mark, id: int)
    requires KnowsMatch(c, msgs, p, id)
    ensures KnowsMatch(ReadAll(c, msgs), [], p, id)
    decreases |msgs|
  {
    if msgs != [] {
      ReadKnows(c, msgs, p, id);
      ReadAllKnows(Receive(c, msgs[0]), msgs[1..], p, id);
    }
  }

  /** When a match is over, a page that reads on to the verdict shows an empty board with no cell to click. */
  lemma PagesCleared(states: seq<System>, steps: seq<Step>, k: nat, p: Mark)
    requires IsRun(states, steps) && k < |states| && Named(states[0]) && states[k].over && p != Blank
    ensures KnowsMatch(states[k].clients.Of(p), states[k].inbox.Of(p), p, states[k].m.id)
    ensures var r := ReadAll(states[k].clients.Of(p), states[k].inbox.Of(p));
      (forall i | 0 <= i < 9 :: r.cells[i] == Blank && !r.enabled[i]) && r.matchid == states[k].m.id && r.player == p
  {
    var s := states[k];
    NamedInRun(states, steps, k);
    RunOk(states, steps, k);
    hide *;
    SideKnows(s, p);
    VerdictLast(s, p);
    LastClears(s.clients.Of(p), s.inbox.Of(p), p, s.m.id);
  }

  lemma SideKnows(s: System, p: Mark)
    requires Named(s) && p != Blank
    ensures KnowsMatch(s.clients.Of(p), s.inbox.Of(p), p, s.m.id)
  {
    assert SideNamed(s, p);
  }

  lemma VerdictLast(s: System, p: Mark)
    requires Finished(s) && p != Blank
    ensures s.inbox.Of(p) != [] && s.inbox.Of(p)[|s.inbox.Of(p)| - 1].code.GameOver?
  {
    hide MatchOk, Evaluate, HasLine;
    assert Announces(s, Draw) || Announces(s, Won(s.log[|s.log| - 1].0));
  }

  lemma LastClears(c: Client, msgs: seq<Message>, p: Mark, id: int)
    requires KnowsMatch(c, msgs, p, id) && msgs != [] && msgs[|msgs| - 1].code.GameOver?
    ensures var r := ReadAll(c, msgs);
      (forall i | 0 <= i < 9 :: r.cells[i] == Blank && !r.enabled[i]) && r.matchid == id && r.player == p
  {
    ReadLast(c, msgs);
    ReadAllKnows(c, msgs, p, id);
    hide ReadAll, Remaining;
  }

  // ---------- a move that cannot be passed on ----------

  /** The server reads a move, cannot send it on, and forgets it. */
  function Dropped(s: System, p: Mark): System
    requires Enabled(s, ServerReads(p))
  {
    s.(outbox := s.outbox.With(p, s.outbox.Of(p)[1..]))
  }

  /** Nobody can click, no move is under way, and nothing is left to read but what O had not from the start. */
  ghost predicate Halted(s: System) {
    && s.outbox == Two([], []) && s.inbox.x == [] && SetupOnly(s.inbox.o)
    && s.clients.x.enabled == AllOff() && s.clients.o.enabled == AllOff() && s.clients.o.player == O
  }

  /** Then the match is stuck, and the mover's page shows a move that the server has not. */
  lemma DroppedHalts(s: System, p: Mark, k: nat)
    requires p != Blank && ToServer(s, p, k) && Enabled(s, ServerReads(p))
    ensures Halted(Dropped(s, p)) && Dropped(s, p).m == s.m && Dropped(s, p).clients.Of(p).cells != s.m.board
  {
    var id := MoveAt(s, p, k);
    assert s.outbox.Of(p) == [Message(id, p, Move(k))] && s.outbox.Of(p)[1..] == [];
    assert s.clients.Of(p).cells[k] == p;
  }

  lemma HaltedKept(s: System, st: Step)
    requires Halted(s) && Enabled(s, st)
    ensures st == ClientReads(O) && Halted(Next(s, st)) && Next(s, st).m == s.m
    ensures Next(s, st).clients.Of(X) == s.clients.Of(X) && Next(s, st).clients.o.cells == s.clients.o.cells
  {
    assert forall k | 0 <= k < 9 :: !AllOff()[k];
  }

  /** So it stays, in whatever follows. */
  lemma {:induction false} HaltedForever(states: seq<System>, steps: seq<Step>, k: nat)
    requires |states| == |steps| + 1 && k < |states| && Halted(states[0])
    requires forall j | 0 <= j < |steps| :: Enabled(states[j], steps[j]) && states[j + 1] == Next(states[j], steps[j])
    ensures Halted(states[k]) && states[k].m == states[0].m && states[k].over == states[0].over
  {
    if k > 0 {
      HaltedForever(states, steps, k - 1);
      hide Halted, Enabled, Next;
      HaltedKept(states[k - 1], steps[k - 1]);
      OverKept(states[k - 1], steps[k - 1]);
    }
  }

  lemma OverKept(s: System, st: Step)
    requires Enabled(s, st) && !st.ServerReads?
    ensures Next(s, st).over == s.over
  {
  }

  // ---------- from the lobby to the first move ----------

  /** A page as loaded: no texts, every cell disabled; a button has set `player`. */
  function Loaded(player: Mark, matchid: int): Client {
    Client(EMPTY, AllOff(), player, matchid)
  }

  /** Once O has joined X's match the composed system is in its initial phase, whether or not X has
      read MATCH_CREATED yet. */
  lemma JoinStarts(x: int, o: int, id: nat, xid: int, oid: int, unread: bool)
    requires x != o && x != NO_PLAYER && o != NO_PLAYER
    ensures Joinable(CreatedMatch(x, id)) && CreatedMatch(x, id).playerO == -1
    ensures var m := Joined(CreatedMatch(x, id), o);
      var waiting := Two(if unread then [Message(id, X, MatchCreated)] else [], []);
      var inbox := Deliver(waiting, m, JoinReplies(m));
      var s := System(m, Two(Loaded(X, xid), Loaded(O, oid)), inbox, Two([], []), false, []);
      && !Joinable(m) && Inv(s) && (Named(s) <==> unread || xid == id)
      && m == Match(id, x, o, m.board, 0, 2) && (forall i | 0 <= i < 9 :: m.board[i] == Blank)
      && s.inbox.x == (if unread then [Message(id, X, MatchCreated)] else []) + [Message(0, X, InitBoard)]
      && s.inbox.o == [Message(id, O, MatchJoined), Message(0, O, InitBoard)]
  {
    var m := Joined(CreatedMatch(x, id), o);
    var waiting := Two(if unread then [Message(id, X, MatchCreated)] else [], []);
    var r := JoinReplies(m);
    var one := waiting.With(O, waiting.o + [r[0].message]);
    var two := one.With(X, one.x + [r[1].message]);
    var three := two.With(O, two.o + [r[2].message]);
    assert r[1..][1..] == [r[2]] && r[1..][1..][1..] == [];
    assert Deliver(waiting, m, r) == Deliver(one, m, r[1..]) == Deliver(two, m, r[1..][1..]) == three by {
      assert Deliver(three, m, []) == three;
    }
    var s := System(m, Two(Loaded(X, xid), Loaded(O, oid)), three, Two([], []), false, []);
    assert Filled(EMPTY) == 0 by { FilledBlank(EMPTY); }
    assert Starting(s);
    LobbyNamed(s, id, unread);
  }

  lemma LobbyNamed(s: System, id: nat, unread: bool)
    requires s.m.id == id && s.m.playerX != s.m.playerO && s.outbox == Two([], [])
    requires s.clients.x.player == X && |s.clients.x.enabled| == 9
    requires s.clients.o.player == O && |s.clients.o.enabled| == 9
    requires s.inbox.x == (if unread then [Message(id, X, MatchCreated)] else []) + [Message(0, X, InitBoard)]
    requires s.inbox.o == [Message(id, O, MatchJoined), Message(0, O, InitBoard)]
    ensures Named(s) <==> unread || s.clients.x.matchid == id
  {
    assert Introduces(s.inbox.o[0]);
    assert unread ==> Introduces(s.inbox.x[0]);
  }

  lemma {:induction false} FilledBlank(b: seq<Mark>)
    requires forall i | 0 <= i < |b| :: b[i] == Blank
    ensures Filled(b) == 0
  {
    if b != [] {
      FilledBlank(b[1..]);
    }
  }

  // ---------- the server program ----------

  /** `evaluate_board` on the 3 by 3 array. */
  method EvaluateBoard(mat: array2<Mark>) returns (r: Option<Mark>)
    requires mat.Length0 == 3 && mat.Length1 == 3
    ensures r == Evaluate(
      [mat[0, 0], mat[0, 1], mat[0, 2], mat[1, 0], mat[1, 1], mat[1, 2], mat[2, 0], mat[2, 1], mat[2, 2]])
  {
    ghost var b :=
      [mat[0, 0], mat[0, 1], mat[0, 2], mat[1, 0], mat[1, 1], mat[1, 2], mat[2, 0], mat[2, 1], mat[2, 2]];
    for i := 0 to 3
      invariant i > 0 ==> !Three(b, 0, 1, 2)
      invariant i > 1 ==> !Three(b, 3, 4, 5)
      invariant i > 2 ==> !Three(b, 6, 7, 8)
    {
      if mat[i, 0] != Blank && mat[i, 0] == mat[i, 1] && mat[i, 1] == mat[i, 2] {
        return Some(mat[i, 0]);
      }
    }
    for j := 0 to 3
      invariant j > 0 ==> !Three(b, 0, 3, 6)
      invariant j > 1 ==> !Three(b, 1, 4, 7)
      invariant j > 2 ==> !Three(b, 2, 5, 8)
    {
      if mat[0, j] != Blank && mat[0, j] == mat[1, j] && mat[1, j] == mat[2, j] {
        return Some(mat[0, j]);
      }
    }
    if mat[0, 0] != Blank && mat[0, 0] == mat[1, 1] && mat[1, 1] == mat[2, 2] {
      return Some(mat[0, 0]);
    }
    if mat[0, 2] != Blank && mat[0, 2] == mat[1, 1] && mat[1, 1] == mat[2, 0] {
      return Some(mat[0, 2]);
    }
    return None;
  }

  /** The messages that go out when `good` sends succeed before one fails. */
  function Got(sends: seq<Sent>, good: nat): seq<Sent> {
    if good < |sends| then sends[..good] else sends
  }

  lemma GotOne(m: Sent, good: nat)
    ensures Got([m], good) == if good == 0 then [] else [m]
  {
  }

  lemma GotFirst(first: Sent, rest: seq<Sent>, good: nat)
    ensures Got([first] + rest, good) == if good == 0 then [] else [first] + Got(rest, good - 1)
  {
  }

  /** The messages of a move: it is passed on, and then come the verdicts, if it ended the match. */
  lemma MoveSends(m: Match, matchid: int, p: Mark, k: nat)
    requires k < 9
    ensures var r := MoveOn(m, matchid, p, k);
      r.sends == [Sent(if p == X then m.playerO else m.playerX, Message(matchid, p, Move(k)))] + r.sends[1..]
    ensures MoveOn(m, matchid, p, k).m == m.(board := m.board[k := p], moves := m.moves + 1)
  {
    hide Evaluate;
  }

  /** The server's globals: the match table, each client's current match, and what has been sent. */
  class Server {
    var matchId: nat
    var matches: map<nat, Match>
    var current: map<int, nat>
    var sent: seq<Sent>

    /** Every match has its creator, and a second player exactly when it counts two. */
    ghost predicate Valid()
      reads this
    {
      && (forall id | id in matches ::
            && id < matchId && matches[id].id == id && matches[id].playerX != NO_PLAYER
            && matches[id].players == (if matches[id].playerO == NO_PLAYER then 1 else 2))
      && NO_PLAYER !in current && (forall fd | fd in current :: current[fd] < matchId)
      && (forall fd | fd in current && current[fd] in matches ::
            fd == matches[current[fd]].playerX || fd == matches[current[fd]].playerO)
    }

    constructor ()
      ensures Valid() && matches == map[] && sent == []
    {
      matchId, matches, current, sent := 0, map[], map[], [];
    }

    /** `send_response`: whether the message went out; `good` of the handler's sends succeed before one fails. */
    method SendResponse(m: Sent, good: nat) returns (ok: bool, left: nat)
      modifies this`sent
      ensures ok == (good > 0) && left == (if ok then good - 1 else 0)
      ensures sent == old(sent) + Got([m], good)
    {
      ok, left := good > 0, good;
      if ok {
        left := good - 1;
        sent := sent + [m];
      }
    }

    /** CREATE_MATCH; a client that is in a match already leaves it without a word. */
    method Create(fd: int, good: nat)
      requires Valid() && matchId < 1000 && fd != NO_PLAYER
      modifies this
      ensures Valid()
      ensures matches == old(matches)[old(matchId) := CreatedMatch(fd, old(matchId))]
      ensures matchId == old(matchId) + 1 && current == old(current)[fd := old(matchId)]
      ensures sent == old(sent) + Got([Sent(fd, Message(old(matchId), X, MatchCreated))], good)
    {
      var id := matchId;
      matchId := matchId + 1;
      var m := Match(id, fd, NO_PLAYER, EMPTY, 0, 0);
      current := current[fd := id];
      matches := matches[id := m.(players := m.players + 1)];
      var _, _ := SendResponse(Sent(fd, Message(id, X, MatchCreated)), good);
    }

    /** JOIN_MATCH: succeeds exactly when the match exists and waits for a second player, who may be its
        creator again; the first send that fails ends the handler. */
    method Join(fd: int, idx: nat, good: nat)
      requires Valid() && idx < 1000 && fd != NO_PLAYER
      modifies this
      ensures Valid() && matchId == old(matchId)
      ensures idx in old(matches) && old(matches)[idx].playerO == NO_PLAYER ==>
                && matches == old(matches)[idx := Joined(old(matches)[idx], fd)] && matches[idx].players == 2
                && current == old(current)[fd := idx] && sent == old(sent) + Got(JoinReplies(matches[idx]), good)
      ensures !(idx in old(matches) && old(matches)[idx].playerO == NO_PLAYER) ==>
                && matches == old(matches) && current == old(current)
                && sent == old(sent) + Got([Sent(fd, Message(0, O, MatchJoinFailed))], good)
    {
      if idx in matches && matches[idx].playerX != NO_PLAYER && matches[idx].playerO == NO_PLAYER
         && matches[idx].players != 2 {
        var m := matches[idx].(playerO := fd);
        m := m.(players := m.players + 1);
        matches := matches[idx := m];
        current := current[fd := idx];
        Reply(m, good);
      } else {
        var _, _ := SendResponse(Sent(fd, Message(0, O, MatchJoinFailed)), good);
      }
    }

    /** The three messages that start a match. */
    method Reply(m: Match, good: nat)
      modifies this`sent
      ensures sent == old(sent) + Got(JoinReplies(m), good)
    {
      var ok, left := SendResponse(Sent(m.playerO, Message(m.id, O, MatchJoined)), good);
      if !ok {
        return;
      }
      ok, left := SendResponse(Sent(m.playerX, Message(0, X, InitBoard)), left);
      if !ok {
        return;
      }
      ok, left := SendResponse(Sent(m.playerO, Message(0, O, InitBoard)), left);
    }

    /** MOVE, while the client's match is still in the table.  If the move cannot be passed on, as when there is no
        other player yet, the server forgets it; if a verdict cannot be sent, the match stays in the table. */
    method MoveReceived(fd: int, msg: Message, good: nat)
      requires Valid() && fd in current && current[fd] in matches
      requires msg.code.Move? && msg.code.cell < 9
      modifies this
      ensures Valid() && current == old(current) && matchId == old(matchId)
      ensures var id := current[fd];
        var r := MoveOn(old(matches)[id], msg.matchid, msg.player, msg.code.cell);
        && sent == old(sent) + Got(r.sends, good)
        && matches == if good == 0 then old(matches)
                      else if r.over && good >= |r.sends| then old(matches) - {id} else old(matches)[id := r.m]
    {
      hide MoveOn, Got;
      var id := current[fd];
      var m := matches[id];
      var receiver := if msg.player == X then m.playerO else m.playerX;
      ghost var r := MoveOn(m, msg.matchid, msg.player, msg.code.cell);
      MoveSends(m, msg.matchid, msg.player, msg.code.cell);
      GotFirst(r.sends[0], r.sends[1..], good);
      GotOne(r.sends[0], good);
      assert r.sends[0] == Sent(receiver, msg);
      var ok, left := SendResponse(Sent(receiver, msg), good);
      if ok {
        PlayMove(id, msg, left);
        ghost var rest := Got(r.sends[1..], left);
        assert old(sent) + [Sent(receiver, msg)] + rest == old(sent) + ([Sent(receiver, msg)] + rest);
      }
    }

    /** The server's own update, once the move is passed on. */
    method PlayMove(id: nat, msg: Message, good: nat)
      requires Valid() && id in matches && msg.code.Move? && msg.code.cell < 9
      modifies this`sent, this`matches
      ensures Valid()
      ensures var r := MoveOn(old(matches)[id], msg.matchid, msg.player, msg.code.cell);
        && sent == old(sent) + Got(r.sends[1..], good)
        && matches == if r.over && good >= |r.sends| - 1 then old(matches) - {id} else old(matches)[id := r.m]
    {
      hide Evaluate;
      ghost var before := matches;
      var m := matches[id];
      m := m.(board := m.board[msg.code.cell := msg.player]);
      m := m.(moves := m.moves + 1);
      matches := matches[id := m];
      assert before[id := m] - {id} == before - {id};
      var res := Evaluate(m.board);
      if res.Some? {
        EndMatch(id, msg.matchid, Won(res.value), good);
      } else if m.moves == 9 {
        EndMatch(id, msg.matchid, Draw, good);
      }
    }

    /** GAME_OVER to both players, and the match is freed. */
    method EndMatch(id: nat, matchid: int, v: Verdict, good: nat)
      requires Valid() && id in matches
      modifies this`sent, this`matches
      ensures Valid() && sent == old(sent) + Got(Verdicts(old(matches)[id], matchid, v), good)
      ensures matches == if good >= 2 then old(matches) - {id} else old(matches)
    {
      var ok, left := SendResponse(Sent(matches[id].playerX, Message(matchid, X, GameOver(v))), good);
      if !ok {
        return;
      }
      ok, left := SendResponse(Sent(matches[id].playerO, Message(matchid, O, GameOver(v))), left);
      if !ok {
        return;
      }
      matches := matches - {id};
    }
  }

  // ---------- the page's script ----------

  /** The buttons of the page, row by row, and the script's globals. */
  class Page {
    const text: array<Mark>
    const enabled: array<bool>
    var player: Mark
    var matchid: int

    constructor ()
      ensures Valid() && View() == Loaded(Blank, 0) && fresh(text) && fresh(enabled)
    {
      text := new Mark[9](i => Blank);
      enabled := new bool[9](i => false);
      player, matchid := Blank, 0;
      new;
      assert text[..] == EMPTY && enabled[..] == AllOff();
    }

    ghost predicate Valid() {
      text.Length == 9 && enabled.Length == 9
    }

    ghost function View(): Client
      requires Valid()
      reads this, text, enabled
    {
      Client(text[..], enabled[..], player, matchid)
    }

    method EnableAllRemaining()
      requires Valid()
      modifies enabled
      ensures View() == EnableRemaining(old(View()))
    {
      for i := 0 to 3
        invariant forall c | 0 <= c < 9 :: enabled[c] == (old(enabled[c]) || (c < 3 * i && text[c] == Blank))
      {
        for j := 0 to 3
          invariant forall c | 0 <= c < 9 :: enabled[c] == (old(enabled[c]) || (c < 3 * i + j && text[c] == Blank))
        {
          if text[3 * i + j] == Blank {
            enabled[3 * i + j] := true;
          }
        }
      }
      assert enabled[..] == Remaining(text[..], old(enabled[..]));
    }

    method DisableAll()
      requires Valid()
      modifies enabled
      ensures View() == old(View()).(enabled := AllOff())
    {
      for i := 0 to 3
        invariant forall c | 0 <= c < 3 * i :: !enabled[c]
      {
        for j := 0 to 3
          invariant forall c | 0 <= c < 3 * i + j :: !enabled[c]
        {
          enabled[3 * i + j] := false;
        }
      }
      assert enabled[..] == AllOff();
    }

    method ClearAndDisableAll()
      requires Valid()
      modifies text, enabled
      ensures View() == old(View()).(cells := EMPTY, enabled := AllOff())
    {
      for i := 0 to 3
        invariant forall c | 0 <= c < 3 * i :: text[c] == Blank && !enabled[c]
      {
        for j := 0 to 3
          invariant forall c | 0 <= c < 3 * i + j :: text[c] == Blank && !enabled[c]
        {
          text[3 * i + j] := Blank;
          enabled[3 * i + j] := false;
        }
      }
      assert text[..] == EMPTY && enabled[..] == AllOff();
    }

    /** `socket.onmessage`. */
    method OnMessage(msg: Message)
      requires Valid() && (msg.code.Move? ==> msg.code.cell < 9)
      modifies this, text, enabled
      ensures Valid() && View() == Receive(old(View()), msg)
    {
      match msg.code
      case MatchCreated =>
        matchid := msg.matchid;
      case MatchJoined =>
        matchid := msg.matchid;
      case Move(k) =>
        text[k] := msg.player;
        enabled[k] := false;
        EnableAllRemaining();
      case InitBoard =>
        if player == X {
          EnableAllRemaining();
        }
      case GameOver(_) =>
        ClearAndDisableAll();
      case _ =>
    }

    /** `handleMove`, which the browser calls for an enabled button. */
    method HandleMove(k: nat) returns (msg: Message)
      requires Valid() && k < 9 && View().enabled[k]
      modifies this, text, enabled
      ensures Valid() && (View(), msg) == Click(old(View()), k)
    {
      text[k] := player;
      enabled[k] := false;
      msg := Message(matchid, player, Move(k));
      DisableAll();
    }
  }
}
