/**
  The database server: connections that read, wait for the one lock, execute, release it, encode and answer,
  in any interleaving. Every run is a serial run of the statements in lock order.
 */
module Server {
  import opened Prelude
  import opened Bytes
  import opened SqlLexer
  import opened SqlGrammar
  import opened Relational
  import opened RelationalLaws

  type ConnId = nat

  const MAX_FRAME := 1048576

  /** A database that statements can be executed on. */
  type SoundDb = db: Db | DbOk(db) witness map[]

  /** What the server computes for a request before it is encoded. */
  datatype Reply = BadRequest | Answered(r: Result<QueryResult, SqlError>)

  /**
    What comes from libraries: number conversion, which payloads are valid and not blank, and the encoding
    of a reply, which may replace a result that is too large.
   */
  datatype Env = Env(reals: Reals, acceptable: Text -> bool, encode: Reply -> Text)

  /** Where the handler of a connection is. */
  datatype Phase =
    | Reading
    | Got(data: Text, received: nat)
    | Holding(data: Text, received: nat)       // the lock is held, nothing executed yet
    | Running(data: Text, received: nat, seen: SoundDb) // the statement works on the database it has read
    | Ran(reply: Reply, index: nat)            // executed as log entry `index`, the lock is still held
    | Answering(reply: Reply, entry: Option<nat>) // encoding and writing, without the lock

  datatype Conn = Conn(phase: Phase, requests: seq<Text>, responses: seq<Text>)

  /** One executed statement: by whom, when it was received, when it was executed. */
  datatype Entry = Entry(conn: ConnId, data: Text, received: nat, executed: nat)

  datatype State = State(
    db: SoundDb,
    lock: Option<ConnId>,
    conns: map<ConnId, Conn>,
    used: set<ConnId>, // every connection there ever was
    closed: bool,
    workers: int,
    log: seq<Entry>,
    answeredAt: map<nat, nat>, // log index to the time its response was written
    clock: nat)

  const START := State(map[], None, map[], {}, false, 0, [], map[], 0)

  datatype Action =
    | Accept(c: ConnId)
    | Receive(c: ConnId, data: Text)
    | Reject(c: ConnId)
    | Acquire(c: ConnId)
    | Begin(c: ConnId)   // the execution reads the database
    | Finish(c: ConnId)  // what it computed from that is written back
    | Release(c: ConnId)
    | Respond(c: ConnId)
    | Drop(c: ConnId) // a read or write failed; the handler ends
    | Close

  function Put(s: State, c: ConnId, k: Conn): State {
    s.(conns := s.conns[c := k], clock := s.clock + 1)
  }

  function PhaseOf(s: State, c: ConnId): Option<Phase> {
    if c in s.conns then Some(s.conns[c].phase) else None
  }

  function Answer(env: Env, s: State, c: ConnId, reply: Reply): State
    requires c in s.conns
  {
    Put(s, c, Conn(Reading, s.conns[c].requests, s.conns[c].responses + [env.encode(reply)]))
  }

  function Leave(s: State, c: ConnId): State {
    s.(conns := s.conns - {c}, workers := s.workers - 1, clock := s.clock + 1)
  }

  /** One step, if it is possible. A handler only fails while it reads or writes, never under the lock. */
  function Step(env: Env, s: State, a: Action): Option<State> {
    match a
    case Accept(c) =>
      if s.closed || c in s.used then None
      else Some(Put(s, c, Conn(Reading, [], [])).(used := s.used + {c}, workers := s.workers + 1))
    case Receive(c, data) =>
      if PhaseOf(s, c) != Some(Reading) || !(0 < |data| <= MAX_FRAME) then None
      else Some(Put(s, c, Conn(Got(data, s.clock), s.conns[c].requests + [data], s.conns[c].responses)))
    case Reject(c) =>
      (match PhaseOf(s, c)
       case Some(Got(data, _)) =>
         if env.acceptable(data) then None else Some(Put(s, c, s.conns[c].(phase := Answering(BadRequest, None))))
       case _ => None)
    case Acquire(c) =>
      (match PhaseOf(s, c)
       case Some(Got(data, at)) =>
         if !env.acceptable(data) || s.lock.Some? then None
         else Some(Put(s, c, s.conns[c].(phase := Holding(data, at))).(lock := Some(c)))
       case _ => None)
    case Begin(c) =>
      (match PhaseOf(s, c)
       case Some(Holding(data, at)) => Some(Put(s, c, s.conns[c].(phase := Running(data, at, s.db))))
       case _ => None)
    case Finish(c) =>
      (match PhaseOf(s, c)
       case Some(Running(data, at, seen)) =>
         var e := ExecuteText(seen, data, env.reals);
         TextKeeps(seen, data, env.reals);
         Some(Put(s, c, s.conns[c].(phase := Ran(Answered(e.r), |s.log|))).(db := e.db, log := s.log + [Entry(c, data, at, s.clock)]))
       case _ => None)
    case Release(c) =>
      (match PhaseOf(s, c)
       case Some(Ran(reply, index)) => Some(Put(s, c, s.conns[c].(phase := Answering(reply, Some(index)))).(lock := None))
       case _ => None)
    case Respond(c) =>
      (match PhaseOf(s, c)
       case Some(Answering(reply, None)) => Some(Answer(env, s, c, reply))
       case Some(Answering(reply, Some(index))) => Some(Answer(env, s, c, reply).(answeredAt := s.answeredAt[index := s.clock]))
       case _ => None)
    case Drop(c) =>
      (match PhaseOf(s, c)
       case Some(Reading) => Some(Leave(s, c))
       case Some(Answering(_, _)) => Some(Leave(s, c))
       case _ => None)
    case Close => Some(s.(closed := true, clock := s.clock + 1))
  }

  // ---- The serial run ----

  function Texts(log: seq<Entry>): (r: seq<Text>)
    ensures |r| == |log|
  {
    seq(|log|, i requires 0 <= i < |log| => log[i].data)
  }

  /** The results of the log, executed one after the other on an empty database. */
  function Results(env: Env, log: seq<Entry>): (r: seq<Result<QueryResult, SqlError>>)
    ensures |r| == |log|
  {
    Session(map[], Texts(log), env.reals).1
  }

  /** The results that belong to one connection, in order. */
  function Mine(log: seq<Entry>, rs: seq<Result<QueryResult, SqlError>>, c: ConnId): seq<Result<QueryResult, SqlError>>
    requires |log| == |rs|
    decreases log
  {
    if log == [] then []
    else
      var n := |log| - 1;
      Mine(log[..n], rs[..n], c) + if log[n].conn == c then [rs[n]] else []
  }

  /** The responses to a connection's requests, given the results of those that were executed. */
  function Replies(env: Env, requests: seq<Text>, mine: seq<Result<QueryResult, SqlError>>): Option<seq<Text>>
    decreases requests
  {
    if requests == [] then if mine == [] then Some([]) else None
    else
      var n := |requests| - 1;
      if env.acceptable(requests[n]) then
        if mine == [] then None else
        var m := |mine| - 1;
        match Replies(env, requests[..n], mine[..m])
        case None => None
        case Some(r) => Some(r + [env.encode(Answered(mine[m]))])
      else
        match Replies(env, requests[..n], mine)
        case None => None
        case Some(r) => Some(r + [env.encode(BadRequest)])
  }

  // ---- The invariant ----

  /** A connection has answered all its requests, in order, with the results of the serial run; but for the one in hand. */
  predicate ConnOk(env: Env, k: Conn, mine: seq<Result<QueryResult, SqlError>>) {
    var n := |k.requests| - 1;
    match k.phase
    case Reading => Replies(env, k.requests, mine) == Some(k.responses)
    case Got(data, _) => n >= 0 && k.requests[n] == data && Replies(env, k.requests[..n], mine) == Some(k.responses)
    case Holding(data, _) =>
      n >= 0 && k.requests[n] == data && env.acceptable(data) && Replies(env, k.requests[..n], mine) == Some(k.responses)
    case Running(data, _, _) =>
      n >= 0 && k.requests[n] == data && env.acceptable(data) && Replies(env, k.requests[..n], mine) == Some(k.responses)
    case Ran(reply, _) => Replies(env, k.requests, mine) == Some(k.responses + [env.encode(reply)])
    case Answering(reply, _) => Replies(env, k.requests, mine) == Some(k.responses + [env.encode(reply)])
  }

  predicate UnderLock(k: Conn) {
    k.phase.Holding? || k.phase.Running? || k.phase.Ran?
  }

  /** Execution times rise along the log, each behind the reception. */
  predicate LogTimesOk(s: State) {
    && (forall i :: 0 <= i < |s.log| ==> s.log[i].received < s.log[i].executed < s.clock)
    && (forall i, j :: 0 <= i < j < |s.log| ==> s.log[i].executed < s.log[j].executed)
  }

  /** A response is written behind the execution. */
  predicate AnswerTimesOk(s: State) {
    forall i :: i in s.answeredAt ==> i < |s.log| && s.log[i].executed < s.answeredAt[i] < s.clock
  }

  predicate TimesOk(s: State) {
    && LogTimesOk(s) && AnswerTimesOk(s)
    && forall c :: c in s.conns ==> PhaseTimesOk(s, s.conns[c].phase)
  }

  predicate PhaseTimesOk(s: State, p: Phase) {
    match p
    case Got(_, at) => at < s.clock
    case Holding(_, at) => at < s.clock
    case Running(_, at, _) => at < s.clock
    case Ran(_, index) => index < |s.log|
    case Answering(_, entry) => entry.Some? ==> entry.value < |s.log|
    case Reading => true
  }

  predicate LockOk(s: State) {
    && (forall c :: c in s.conns ==> (UnderLock(s.conns[c]) <==> s.lock == Some(c)))
    && (s.lock.Some? ==> s.lock.value in s.conns)
  }

  /** What a handler has read of the database is still what is there. */
  predicate SeenOk(s: State) {
    forall c :: c in s.conns && s.conns[c].phase.Running? ==> s.conns[c].phase.seen == s.db
  }

  predicate UsedOk(s: State) {
    s.conns.Keys <= s.used && forall i :: 0 <= i < |s.log| ==> s.log[i].conn in s.used
  }

  predicate ConnsOk(env: Env, s: State) {
    forall c :: c in s.conns ==> ConnOk(env, s.conns[c], Mine(s.log, Results(env, s.log), c))
  }

  predicate Inv(env: Env, s: State) {
    && s.db == Session(map[], Texts(s.log), env.reals).0
    && LockOk(s) && SeenOk(s) && TimesOk(s) && UsedOk(s) && ConnsOk(env, s)
    && s.workers == |s.conns|
  }

  // ---- Every step keeps it ----

  lemma {:induction false} MineOfNobody(log: seq<Entry>, rs: seq<Result<QueryResult, SqlError>>, c: ConnId)
    requires |log| == |rs| && forall i :: 0 <= i < |log| ==> log[i].conn != c
    ensures Mine(log, rs, c) == []
    decreases log
  {
    if log != [] {
      MineOfNobody(log[..|log| - 1], rs[..|log| - 1], c);
    }
  }

  /** One more executed statement: the serial run goes on where it was. */
  lemma Appended(env: Env, log: seq<Entry>, e: Entry)
    ensures var db := Session(map[], Texts(log), env.reals).0;
            && DbOk(db)
            && var x := ExecuteText(db, e.data, env.reals);
               && DbOk(x.db) && Session(map[], Texts(log + [e]), env.reals).0 == x.db
               && Results(env, log + [e]) == Results(env, log) + [x.r]
  {
    hide ExecuteText, DbOk, Session;
    EmptyDbOk();
    var all := Texts(log + [e]);
    assert all == Texts(log) + [e.data];
    SessionAppend(map[], Texts(log), [e.data], env.reals);
    var db := Session(map[], Texts(log), env.reals).0;
    OneSession(db, e.data, env.reals);
    TextKeeps(db, e.data, env.reals);
  }

  lemma EmptyDbOk()
    ensures DbOk(map[])
  {
  }

  lemma MineAppended(log: seq<Entry>, rs: seq<Result<QueryResult, SqlError>>, e: Entry, r: Result<QueryResult, SqlError>, c: ConnId)
    requires |log| == |rs|
    ensures Mine(log + [e], rs + [r], c) == Mine(log, rs, c) + if e.conn == c then [r] else []
  {
    var n := |log|;
    assert (log + [e])[..n] == log && (rs + [r])[..n] == rs;
  }

  lemma RepliesAnswered(env: Env, requests: seq<Text>, mine: seq<Result<QueryResult, SqlError>>, responses: seq<Text>, r: Result<QueryResult, SqlError>)
    requires requests != [] && env.acceptable(requests[|requests| - 1])
    requires Replies(env, requests[..|requests| - 1], mine) == Some(responses)
    ensures Replies(env, requests, mine + [r]) == Some(responses + [env.encode(Answered(r))])
  {
    assert (mine + [r])[..|mine|] == mine;
  }

  lemma RepliesRejected(env: Env, requests: seq<Text>, mine: seq<Result<QueryResult, SqlError>>, responses: seq<Text>)
    requires requests != [] && !env.acceptable(requests[|requests| - 1])
    requires Replies(env, requests[..|requests| - 1], mine) == Some(responses)
    ensures Replies(env, requests, mine) == Some(responses + [env.encode(BadRequest)])
  {
  }

  /** The connections after a step that executes nothing. */
  lemma ConnsKept(env: Env, s: State, s': State, c: ConnId, changed: bool)
    requires ConnsOk(env, s) && s'.log == s.log
    requires forall d :: d in s'.conns && (d != c || !changed) ==> d in s.conns && s'.conns[d] == s.conns[d]
    requires changed && c in s'.conns ==> ConnOk(env, s'.conns[c], Mine(s.log, Results(env, s.log), c))
    ensures ConnsOk(env, s')
  {
    hide ConnOk, Mine, Results;
  }

  lemma ConnsAfterExecution(env: Env, s: State, s': State, c: ConnId, e: Entry, r: Result<QueryResult, SqlError>)
    requires ConnsOk(env, s) && s'.log == s.log + [e] && e.conn == c && Results(env, s'.log) == Results(env, s.log) + [r]
    requires forall d :: d in s'.conns && d != c ==> d in s.conns && s'.conns[d] == s.conns[d]
    requires c in s'.conns && ConnOk(env, s'.conns[c], Mine(s.log, Results(env, s.log), c) + [r])
    ensures ConnsOk(env, s')
  {
    hide ConnOk, Mine, Results;
    forall d | d in s'.conns ensures ConnOk(env, s'.conns[d], Mine(s'.log, Results(env, s'.log), d)) {
      MineAppended(s.log, Results(env, s.log), e, r, d);
      assert Mine(s.log, Results(env, s.log), d) + [] == Mine(s.log, Results(env, s.log), d);
    }
  }

  lemma StepKeeps(env: Env, s: State, a: Action)
    requires Inv(env, s) && Step(env, s, a).Some?
    ensures Inv(env, Step(env, s, a).value)
  {
    hide ConnsOk, Session, DbOk, Texts, LockOk, SeenOk, TimesOk, UsedOk, Step;
    StepLock(env, s, a);
    StepSeen(env, s, a);
    StepTimes(env, s, a);
    StepConns(env, s, a);
    StepCounts(env, s, a);
    StepDb(env, s, a);
  }

  lemma StepDb(env: Env, s: State, a: Action)
    requires SeenOk(s) && s.db == Session(map[], Texts(s.log), env.reals).0 && Step(env, s, a).Some?
    ensures var s' := Step(env, s, a).value; s'.db == Session(map[], Texts(s'.log), env.reals).0
  {
    hide Session, ExecuteText, DbOk, Texts, Results;
    if a.Finish? {
      Appended(env, s.log, Entry(a.c, s.conns[a.c].phase.data, s.conns[a.c].phase.received, s.clock));
    }
  }

  lemma StepLock(env: Env, s: State, a: Action)
    requires LockOk(s) && UsedOk(s) && Step(env, s, a).Some?
    ensures LockOk(Step(env, s, a).value)
  {
    hide Step, UnderLock;
    StepOthers(env, s, a);
    if !a.Close? {
      StepOwn(env, s, a);
    }
  }

  /** A step of one handler leaves all others alone. */
  lemma StepOthers(env: Env, s: State, a: Action)
    requires Step(env, s, a).Some?
    ensures var s' := Step(env, s, a).value;
            if a.Close? then s'.conns == s.conns && s'.lock == s.lock
            else forall d :: d != a.c ==> (d in s'.conns <==> d in s.conns) && (d in s.conns ==> s'.conns[d] == s.conns[d])
  {
    hide ExecuteText, DbOk;
  }

  /** Where the handler that makes a step stands to the lock. */
  lemma StepOwn(env: Env, s: State, a: Action)
    requires Step(env, s, a).Some? && !a.Close?
    ensures var s', c := Step(env, s, a).value, a.c;
            if a.Acquire? then s.lock.None? && s'.lock == Some(c) && c in s'.conns && UnderLock(s'.conns[c])
            else if a.Release? then s'.lock.None? && c in s.conns && UnderLock(s.conns[c]) && c in s'.conns && !UnderLock(s'.conns[c])
            else
              && s'.lock == s.lock
              && (a.Accept? ==> c !in s.used && !UnderLock(s'.conns[c]))
              && (a.Drop? ==> c in s.conns && c !in s'.conns && !UnderLock(s.conns[c]))
              && (!a.Accept? && !a.Drop? ==> c in s.conns && c in s'.conns && (UnderLock(s.conns[c]) <==> UnderLock(s'.conns[c])))
  {
    hide ExecuteText, DbOk;
  }

  /**
    What the lock is for. Only the handler that holds it writes the database, so what another handler has
    read cannot go stale: the other handler would hold the lock too.
   */
  lemma StepSeen(env: Env, s: State, a: Action)
    requires LockOk(s) && SeenOk(s) && Step(env, s, a).Some?
    ensures SeenOk(Step(env, s, a).value)
  {
    hide ExecuteText, DbOk;
    var s' := Step(env, s, a).value;
    assert a.Finish? ==> forall c :: c in s.conns && UnderLock(s.conns[c]) ==> c == a.c;
    forall c | c in s'.conns && s'.conns[c].phase.Running? ensures s'.conns[c].phase.seen == s'.db {
    }
  }

  lemma StepTimes(env: Env, s: State, a: Action)
    requires TimesOk(s) && Step(env, s, a).Some?
    ensures TimesOk(Step(env, s, a).value)
  {
    hide ExecuteText, DbOk, Step, LogTimesOk, AnswerTimesOk, PhaseTimesOk;
    StepLogTimes(env, s, a);
    StepAnswerTimes(env, s, a);
    var s' := Step(env, s, a).value;
    forall c | c in s'.conns ensures PhaseTimesOk(s', s'.conns[c].phase) {
      StepPhaseTimes(env, s, a, c);
    }
  }

  lemma StepLogTimes(env: Env, s: State, a: Action)
    requires TimesOk(s) && Step(env, s, a).Some?
    ensures LogTimesOk(Step(env, s, a).value)
  {
    hide ExecuteText, DbOk, AnswerTimesOk;
    if a.Finish? {
      assert PhaseTimesOk(s, s.conns[a.c].phase);
    }
  }

  lemma StepAnswerTimes(env: Env, s: State, a: Action)
    requires TimesOk(s) && Step(env, s, a).Some?
    ensures AnswerTimesOk(Step(env, s, a).value)
  {
    hide ExecuteText, DbOk, PhaseTimesOk;
    if a.Respond? && s.conns[a.c].phase.entry.Some? {
      RespondTimes(s, s.conns[a.c].phase);
    }
  }

  lemma RespondTimes(s: State, p: Phase)
    requires PhaseTimesOk(s, p) && p.Answering? && p.entry.Some? && LogTimesOk(s)
    ensures p.entry.value < |s.log| && s.log[p.entry.value].executed < s.clock
  {
  }

  lemma StepPhaseTimes(env: Env, s: State, a: Action, c: ConnId)
    requires TimesOk(s) && Step(env, s, a).Some? && c in Step(env, s, a).value.conns
    ensures PhaseTimesOk(Step(env, s, a).value, Step(env, s, a).value.conns[c].phase)
  {
    hide ExecuteText, DbOk, LogTimesOk, AnswerTimesOk, Step, PhaseTimesOk;
    StepOthers(env, s, a);
    StepShape(env, s, a);
    if c in s.conns {
      assert PhaseTimesOk(s, s.conns[c].phase);
    }
    if a.Close? || c != a.c {
      LaterTimes(s, Step(env, s, a).value, Step(env, s, a).value.conns[c].phase);
    } else {
      OwnPhaseTimes(env, s, a);
    }
  }

  lemma LaterTimes(s: State, s': State, p: Phase)
    requires PhaseTimesOk(s, p) && s'.clock == s.clock + 1 && |s.log| <= |s'.log|
    ensures PhaseTimesOk(s', p)
  {
  }

  lemma OwnPhaseTimes(env: Env, s: State, a: Action)
    requires !a.Close? && (a.c in s.conns ==> PhaseTimesOk(s, s.conns[a.c].phase)) && Step(env, s, a).Some? && a.c in Step(env, s, a).value.conns
    ensures PhaseTimesOk(Step(env, s, a).value, Step(env, s, a).value.conns[a.c].phase)
  {
    hide ExecuteText, DbOk;
  }

  /** Which connections there are after a step, and what it adds to the log. */
  lemma StepShape(env: Env, s: State, a: Action)
    requires Step(env, s, a).Some?
    ensures var s' := Step(env, s, a).value;
            && (a.Accept? ==> a.c !in s.used && a.c in s'.conns && s'.conns[a.c] == Conn(Reading, [], []))
            && (a.Accept? ==> s'.conns.Keys == s.conns.Keys + {a.c} && s'.used == s.used + {a.c} && s'.workers == s.workers + 1)
            && (a.Drop? ==> a.c in s.conns && s'.conns.Keys == s.conns.Keys - {a.c} && s'.used == s.used && s'.workers == s.workers - 1)
            && (!a.Accept? && !a.Drop? ==> s'.conns.Keys == s.conns.Keys && s'.used == s.used && s'.workers == s.workers)
            && (a.Finish? ==> a.c in s.conns && |s'.log| == |s.log| + 1 && s'.log[..|s.log|] == s.log && s'.log[|s.log|].conn == a.c)
            && (!a.Finish? ==> s'.log == s.log) && s'.clock == s.clock + 1
  {
    hide ExecuteText, DbOk;
    assert a.Drop? ==> (s.conns - {a.c}).Keys == s.conns.Keys - {a.c};
  }

  lemma StepCounts(env: Env, s: State, a: Action)
    requires UsedOk(s) && s.workers == |s.conns| && Step(env, s, a).Some?
    ensures UsedOk(Step(env, s, a).value) && Step(env, s, a).value.workers == |Step(env, s, a).value.conns|
  {
    hide Step, DbOk;
    StepShape(env, s, a);
    var s' := Step(env, s, a).value;
    assert |s.conns| == |s.conns.Keys| && |s'.conns| == |s'.conns.Keys|;
    if a.Finish? {
      assert s'.log == s'.log[..|s.log|] + [s'.log[|s.log|]];
    }
  }

  lemma StepConns(env: Env, s: State, a: Action)
    requires Inv(env, s) && Step(env, s, a).Some?
    ensures ConnsOk(env, Step(env, s, a).value)
  {
    hide Step, ConnsOk, Mine, Results, Session, Texts, LockOk, SeenOk, TimesOk, UsedOk, Replies, ConnOk;
    var s' := Step(env, s, a).value;
    StepOthers(env, s, a);
    StepShape(env, s, a);
    match a
    case Close => ConnsKept(env, s, s', 0, false);
    case Accept(c) => NewConn(env, s, c); ConnsKept(env, s, s', c, true);
    case Finish(c) => FinishConn(env, s, c);
    case Drop(c) => ConnsKept(env, s, s', c, false);
    case Receive(c, _) => OtherConn(env, s, a); ConnsKept(env, s, s', c, true);
    case Reject(c) => OtherConn(env, s, a); ConnsKept(env, s, s', c, true);
    case Acquire(c) => OtherConn(env, s, a); ConnsKept(env, s, s', c, true);
    case Begin(c) => OtherConn(env, s, a); ConnsKept(env, s, s', c, true);
    case Release(c) => OtherConn(env, s, a); ConnsKept(env, s, s', c, true);
    case Respond(c) => OtherConn(env, s, a); ConnsKept(env, s, s', c, true);
  }

  lemma NewConn(env: Env, s: State, c: ConnId)
    requires UsedOk(s) && c !in s.used
    ensures ConnOk(env, Conn(Reading, [], []), Mine(s.log, Results(env, s.log), c))
  {
    hide Results;
    MineOfNobody(s.log, Results(env, s.log), c);
  }

  lemma ConnFact(env: Env, s: State, c: ConnId)
    requires ConnsOk(env, s) && c in s.conns
    ensures ConnOk(env, s.conns[c], Mine(s.log, Results(env, s.log), c))
  {
  }

  /** The steps of a handler that do not execute anything. */
  lemma ReceiveConn(env: Env, k: Conn, mine: seq<Result<QueryResult, SqlError>>, data: Text, at: nat)
    requires ConnOk(env, k, mine) && k.phase.Reading?
    ensures ConnOk(env, Conn(Got(data, at), k.requests + [data], k.responses), mine)
  {
    hide Replies;
    assert (k.requests + [data])[..|k.requests|] == k.requests;
  }

  lemma RejectConn(env: Env, k: Conn, mine: seq<Result<QueryResult, SqlError>>)
    requires ConnOk(env, k, mine) && k.phase.Got? && !env.acceptable(k.phase.data)
    ensures ConnOk(env, k.(phase := Answering(BadRequest, None)), mine)
  {
    hide Replies;
    RepliesRejected(env, k.requests, mine, k.responses);
  }

  lemma OtherConn(env: Env, s: State, a: Action)
    requires ConnsOk(env, s) && Step(env, s, a).Some? && (a.Receive? || a.Reject? || a.Acquire? || a.Begin? || a.Release? || a.Respond?)
    ensures a.c in s.conns && ConnOk(env, Step(env, s, a).value.conns[a.c], Mine(s.log, Results(env, s.log), a.c))
  {
    hide ConnsOk, Mine, Results, DbOk, Replies, ExecuteText;
    var k, mine := s.conns[a.c], Mine(s.log, Results(env, s.log), a.c);
    ConnFact(env, s, a.c);
    match a
    case Receive(_, data) => ReceiveConn(env, k, mine, data, s.clock);
    case Reject(_) => RejectConn(env, k, mine);
    case _ =>
  }

  lemma FinishConn(env: Env, s: State, c: ConnId)
    requires Inv(env, s) && Step(env, s, Finish(c)).Some?
    ensures ConnsOk(env, Step(env, s, Finish(c)).value)
  {
    hide ConnsOk, Mine, Results, Session, ExecuteText, DbOk, Texts, LockOk, TimesOk, Replies;
    var s' := Step(env, s, Finish(c)).value;
    var k, mine := s.conns[c], Mine(s.log, Results(env, s.log), c);
    var e := Entry(c, k.phase.data, k.phase.received, s.clock);
    Appended(env, s.log, e);
    assert k.phase.seen == s.db;
    var r := ExecuteText(s.db, e.data, env.reals).r;
    ConnFact(env, s, c);
    RepliesAnswered(env, k.requests, mine, k.responses, r);
    ConnsAfterExecution(env, s, s', c, e, r);
  }

  // ---- All runs ----

  /** The state after a run, as long as every step is possible. */
  function Run(env: Env, s: State, actions: seq<Action>): Option<State>
    decreases actions
  {
    if actions == [] then Some(s)
    else match Step(env, s, actions[0])
      case None => None
      case Some(s') => Run(env, s', actions[1..])
  }

  lemma StartOk(env: Env)
    ensures Inv(env, START)
  {
    EmptySession(map[], env.reals);
  }

  lemma {:induction false} RunKeeps(env: Env, s: State, actions: seq<Action>)
    requires Inv(env, s) && Run(env, s, actions).Some?
    ensures Inv(env, Run(env, s, actions).value)
    decreases actions
  {
    hide Step, DbOk, Session, LockOk, TimesOk, UsedOk, ConnsOk, Texts;
    if actions != [] {
      StepKeeps(env, s, actions[0]);
      RunKeeps(env, Step(env, s, actions[0]).value, actions[1..]);
    }
  }

  /**
    Linearizability. After any interleaving the database is that of the executed statements one after the
    other in lock order, and every idle connection has got one response for each of its requests, in order:
    the encoded result of that serial run, or the refusal of a payload that is no statement.
   */
  lemma Linearizable(env: Env, actions: seq<Action>)
    requires Run(env, START, actions).Some?
    ensures var s := Run(env, START, actions).value;
            && s.db == Session(map[], Texts(s.log), env.reals).0
            && forall c :: c in s.conns && s.conns[c].phase.Reading? ==>
                 && |s.conns[c].responses| == |s.conns[c].requests|
                 && Replies(env, s.conns[c].requests, Mine(s.log, Results(env, s.log), c)) == Some(s.conns[c].responses)
  {
    hide Run, Mine, Results, Session, Texts, LockOk, TimesOk, UsedOk, DbOk;
    StartOk(env);
    RunKeeps(env, START, actions);
    var s := Run(env, START, actions).value;
    forall c | c in s.conns && s.conns[c].phase.Reading?
      ensures |s.conns[c].responses| == |s.conns[c].requests|
    {
      ConnFact(env, s, c);
      OneReplyEach(env, s.conns[c].requests, Mine(s.log, Results(env, s.log), c));
    }
  }

  lemma {:induction false} OneReplyEach(env: Env, requests: seq<Text>, mine: seq<Result<QueryResult, SqlError>>)
    requires Replies(env, requests, mine).Some?
    ensures |Replies(env, requests, mine).value| == |requests|
    decreases requests
  {
    if requests != [] {
      var n := |requests| - 1;
      OneReplyEach(env, requests[..n], if env.acceptable(requests[n]) then mine[..|mine| - 1] else mine);
    }
  }

  /** The serial order respects real time: what was answered before something else was received comes first. */
  lemma RealTimeOrder(env: Env, actions: seq<Action>, i: nat, j: nat)
    requires Run(env, START, actions).Some?
    requires var s := Run(env, START, actions).value;
             i < |s.log| && j < |s.log| && i in s.answeredAt && s.answeredAt[i] < s.log[j].received
    ensures i < j
  {
    hide Run, Session, Texts, LockOk, UsedOk, DbOk, ConnsOk;
    StartOk(env);
    RunKeeps(env, START, actions);
    var s := Run(env, START, actions).value;
    assert s.log[i].executed < s.log[j].executed;
  }

  /** At most one handler is between taking and releasing the lock, and the worker count is the number of handlers. */
  lemma MutualExclusion(env: Env, actions: seq<Action>, c: ConnId, d: ConnId)
    requires Run(env, START, actions).Some?
    requires var s := Run(env, START, actions).value; c in s.conns && d in s.conns && UnderLock(s.conns[c]) && UnderLock(s.conns[d])
    ensures c == d && Run(env, START, actions).value.workers == |Run(env, START, actions).value.conns|
  {
    hide Run, Session, Texts, TimesOk, UsedOk, DbOk, ConnsOk;
    StartOk(env);
    RunKeeps(env, START, actions);
  }

  // ---- Every request can be answered ----

  /** How many steps a handler that is not waiting for the lock still has to make. */
  function Rank(p: Phase): nat {
    match p
    case Reading => 0
    case Answering(_, _) => 1
    case Ran(_, _) => 2
    case Running(_, _, _) => 3
    case Holding(_, _) => 4
    case Got(_, _) => 6
  }

  function NextOf(p: Phase, c: ConnId): Action {
    match p
    case Holding(_, _) => Begin(c)
    case Running(_, _, _) => Finish(c)
    case Ran(_, _) => Release(c)
    case _ => Respond(c)
  }

  /** A handler that has the lock, or has left it, can always make its next step, which concerns nobody else. */
  lemma CanGoOn(env: Env, s: State, c: ConnId)
    requires c in s.conns && 0 < Rank(s.conns[c].phase) <= 4
    ensures var k, a := s.conns[c], NextOf(s.conns[c].phase, c);
            && Step(env, s, a).Some?
            && var s' := Step(env, s, a).value;
               && c in s'.conns && Rank(s'.conns[c].phase) == Rank(k.phase) - 1 && s'.conns[c].requests == k.requests
               && |s'.conns[c].responses| == |k.responses| + (if k.phase.Answering? then 1 else 0)
               && (forall d :: d in s.conns && d != c ==> d in s'.conns && s'.conns[d] == s.conns[d])
               && s'.lock == if k.phase.Ran? then None else s.lock
  {
    hide Step, Rank;
    NextStep(env, s, c);
    StepOthers(env, s, NextOf(s.conns[c].phase, c));
  }

  lemma NextStep(env: Env, s: State, c: ConnId)
    requires c in s.conns && 0 < Rank(s.conns[c].phase) <= 4
    ensures var k, a := s.conns[c], NextOf(s.conns[c].phase, c);
            && Step(env, s, a).Some?
            && var s' := Step(env, s, a).value;
               && c in s'.conns && Rank(s'.conns[c].phase) == Rank(k.phase) - 1 && s'.conns[c].requests == k.requests
               && |s'.conns[c].responses| == |k.responses| + (if k.phase.Answering? then 1 else 0)
               && s'.lock == if k.phase.Ran? then None else s.lock
  {
    hide ExecuteText, DbOk;
  }

  lemma RunOne(env: Env, s: State, a: Action, more: seq<Action>)
    requires Step(env, s, a).Some?
    ensures Run(env, s, [a] + more) == Run(env, Step(env, s, a).value, more)
  {
    hide Step;
    assert ([a] + more)[1..] == more;
  }

  lemma {:induction false} RunAppend(env: Env, s: State, a: seq<Action>, b: seq<Action>)
    requires Run(env, s, a).Some?
    ensures Run(env, s, a + b) == Run(env, Run(env, s, a).value, b)
    decreases a
  {
    hide Step;
    if a == [] {
      assert a + b == b;
    } else {
      RunAppend(env, Step(env, s, a[0]).value, a[1..], b);
      assert a + b == [a[0]] + (a[1..] + b);
      RunOne(env, s, a[0], a[1..] + b);
    }
  }

  /** The connection is idle, and has answered the request it had in hand. */
  ghost predicate Answers(s: State, s': State, c: ConnId) {
    && c in s.conns && c in s'.conns && s'.conns[c].phase.Reading? && s'.conns[c].requests == s.conns[c].requests
    && |s'.conns[c].responses| == |s.conns[c].responses| + (if s.conns[c].phase.Reading? then 0 else 1)
  }

  /** By its own steps alone, a handler that need not wait for the lock gets to its answer. */
  lemma {:induction false} Completes(env: Env, s: State, c: ConnId) returns (more: seq<Action>)
    requires c in s.conns && Rank(s.conns[c].phase) <= 4
    ensures Run(env, s, more).Some? && Answers(s, Run(env, s, more).value, c)
    ensures forall d :: d in s.conns && d != c ==> d in Run(env, s, more).value.conns && Run(env, s, more).value.conns[d] == s.conns[d]
    ensures Run(env, s, more).value.lock == if Rank(s.conns[c].phase) >= 2 then None else s.lock
    decreases Rank(s.conns[c].phase)
  {
    hide Step;
    if Rank(s.conns[c].phase) == 0 {
      more := [];
    } else {
      CanGoOn(env, s, c);
      var a := NextOf(s.conns[c].phase, c);
      var s1 := Step(env, s, a).value;
      var rest := Completes(env, s1, c);
      more := [a] + rest;
      RunOne(env, s, a, rest);
    }
  }

  /** The first step out of `Got`: a refusal, or taking the free lock. */
  lemma CanStart(env: Env, s: State, c: ConnId)
    requires c in s.conns && s.conns[c].phase.Got? && (env.acceptable(s.conns[c].phase.data) ==> s.lock.None?)
    ensures var k := s.conns[c];
            var a := if env.acceptable(k.phase.data) then Acquire(c) else Reject(c);
            && Step(env, s, a).Some?
            && var s' := Step(env, s, a).value;
               && c in s'.conns && 0 < Rank(s'.conns[c].phase) <= 4
               && s'.conns[c].requests == k.requests && s'.conns[c].responses == k.responses
  {
    hide ExecuteText, DbOk;
  }

  lemma Starts(env: Env, s: State, c: ConnId) returns (more: seq<Action>)
    requires c in s.conns && s.conns[c].phase.Got? && (env.acceptable(s.conns[c].phase.data) ==> s.lock.None?)
    ensures Run(env, s, more).Some? && Answers(s, Run(env, s, more).value, c)
  {
    hide Step;
    CanStart(env, s, c);
    var a := if env.acceptable(s.conns[c].phase.data) then Acquire(c) else Reject(c);
    var s1 := Step(env, s, a).value;
    var rest := Completes(env, s1, c);
    more := [a] + rest;
    RunOne(env, s, a, rest);
  }

  /**
    No deadlock: from every state a run can reach, any handler can be brought to its answer. If it waits for
    the lock, the handler that has it can go on and will give it back.
   */
  lemma EveryRequestCanBeAnswered(env: Env, actions: seq<Action>, c: ConnId) returns (more: seq<Action>)
    requires Run(env, START, actions).Some? && c in Run(env, START, actions).value.conns
    ensures Run(env, START, actions + more).Some?
    ensures Answers(Run(env, START, actions).value, Run(env, START, actions + more).value, c)
  {
    hide Run, Step, Session, Texts, SeenOk, TimesOk, UsedOk, ConnsOk, DbOk;
    StartOk(env);
    RunKeeps(env, START, actions);
    var s := Run(env, START, actions).value;
    var k := s.conns[c];
    if !k.phase.Got? {
      more := Completes(env, s, c);
    } else if !env.acceptable(k.phase.data) || s.lock.None? {
      more := Starts(env, s, c);
    } else {
      var d := s.lock.value;
      assert UnderLock(s.conns[d]) && d != c;
      var first := Completes(env, s, d);
      var s1 := Run(env, s, first).value;
      var rest := Starts(env, s1, c);
      more := first + rest;
      RunAppend(env, s, first, rest);
    }
    RunAppend(env, START, actions, more);
  }

  /** An open server takes new connections, and an idle connection takes any payload of 1 to 1048576 bytes. */
  lemma RequestsAreTaken(env: Env, s: State, c: ConnId, data: Text)
    ensures !s.closed && c !in s.used ==> Step(env, s, Accept(c)).Some?
    ensures c in s.conns && s.conns[c].phase.Reading? && 1 <= |data| <= 1048576 ==>
              && Step(env, s, Receive(c, data)).Some?
              && Step(env, s, Receive(c, data)).value.conns[c].requests == s.conns[c].requests + [data]
  {
  }
}
