/** The bank server: any number of client processes over one shared account table. One step of a
    process reads or writes one shared field, or takes or gives back one mutex, which is atomic; so
    every interleaving is a run. A field that the client's own mutex protects is not read twice in
    a row, and a name is one field. */
module Bank {
  import opened Options

  type Cid = nat
  const MAX_ACCOUNT: nat := 20

  /** A slot of the table; owner is the client that holds its session mutex. */
  datatype Account = Account(name: string, balance: real, inSession: bool, owner: Option<Cid>)

  /** An update of an account that its client has been told of. */
  datatype Ack = Ack(account: nat, delta: real)

  /** The memory all processes share: the table, the number of accounts in use, the client that
      holds the registry mutex; and, for the statements only, the acknowledged updates. */
  datatype Shared = Shared(accounts: seq<Account>, count: nat, registry: Option<Cid>, acks: seq<Ack>)

  /** Where a client process is. The locks it waits for or holds are those of the program. */
  datatype Pc =
    | Idle
    | OpenWait(name: string)
    | OpenCheck(name: string)
    | OpenSearch(name: string, n: nat, k: nat)
    | OpenInit(name: string, index: nat)
    | OpenName(name: string, index: nat)
    | OpenBalance(name: string, index: nat)
    | OpenFlag(name: string, index: nat)
    | OpenCount(name: string)
    | OpenStore(name: string, n: nat)
    | OpenUnlock
    | StartWait(name: string)
    | StartSnapshot(name: string)
    | StartUnlock(name: string, n: nat)
    | StartSearch(name: string, n: nat, k: nat)
    | StartTry(name: string, index: nat)
    | StartFlag(name: string, index: nat)
    | DebitTest(amount: real)
    | DebitRead(amount: real)
    | DebitWrite(amount: real, seen: real)
    | CreditRead(amount: real)
    | CreditWrite(amount: real, seen: real)
    | Respond(delta: real)
    | FinishFlag(exit: bool)
    | FinishUnlock(exit: bool)
    | Exited

  /** A process and its client_account pointer. */
  datatype Client = Client(pc: Pc, account: Option<nat>)

  datatype State = State(shared: Shared, clients: map<Cid, Client>)

  /** Requests; amounts come from number tokens, which have no sign. Hangup stands for a closed
      connection and for a time-out. */
  datatype Request =
    | Open(name: string)
    | Start(name: string)
    | Debit(amount: real)
    | Credit(amount: real)
    | Balance
    | Finish
    | Exit
    | Hangup

  predicate Sendable(r: Request) {
    (r.Debit? || r.Credit?) ==> r.amount >= 0.0
  }

  // ----- One step of a client: what it makes of the shared memory and of itself -----

  function At(sh: Shared, i: nat): Account
    requires |sh.accounts| == MAX_ACCOUNT
  {
    if i < MAX_ACCOUNT then sh.accounts[i] else Account("", 0.0, false, None)
  }

  function Put(sh: Shared, i: nat, a: Account): Shared
    requires |sh.accounts| == MAX_ACCOUNT
  {
    if i < MAX_ACCOUNT then sh.(accounts := sh.accounts[i := a]) else sh
  }

  /** The head of the request loop. */
  function Receive(sh: Shared, cl: Client, r: Request): Client
    requires |sh.accounts| == MAX_ACCOUNT
  {
    if r.Hangup? then
      if cl.account.Some? then cl.(pc := FinishFlag(true)) else cl.(pc := Exited)
    else if cl.account.None? || !At(sh, cl.account.value).inSession then
      match r
      case Open(name) => cl.(pc := OpenWait(name))
      case Start(name) => cl.(pc := StartWait(name))
      case Exit => cl.(pc := Exited)
      case _ => cl
    else
      match r
      case Debit(amount) => cl.(pc := DebitTest(amount))
      case Credit(amount) => cl.(pc := CreditRead(amount))
      case Finish => cl.(pc := FinishFlag(false))
      case Exit => cl.(pc := FinishFlag(true))
      case _ => cl
  }

  function StepOpen(sh: Shared, c: Cid, cl: Client): (Shared, Client)
    requires |sh.accounts| == MAX_ACCOUNT
  {
    match cl.pc
    case OpenWait(name) =>
      if sh.registry.Some? then (sh, cl) else (sh.(registry := Some(c)), cl.(pc := OpenCheck(name)))
    case OpenCheck(name) =>
      if sh.count == MAX_ACCOUNT then (sh, cl.(pc := OpenUnlock))
      else (sh, cl.(pc := OpenSearch(name, sh.count, 0)))
    case OpenSearch(name, n, k) =>
      if k == n then (sh, cl.(pc := OpenInit(name, n)))
      else if At(sh, k).name == name then (sh, cl.(pc := OpenUnlock))
      else (sh, cl.(pc := OpenSearch(name, n, k + 1)))
    case OpenInit(name, index) => (Put(sh, index, At(sh, index).(owner := None)), cl.(pc := OpenName(name, index)))
    case OpenName(name, index) => (Put(sh, index, At(sh, index).(name := name)), cl.(pc := OpenBalance(name, index)))
    case OpenBalance(name, index) => (Put(sh, index, At(sh, index).(balance := 0.0)), cl.(pc := OpenFlag(name, index)))
    case OpenFlag(name, index) => (Put(sh, index, At(sh, index).(inSession := false)), cl.(pc := OpenCount(name)))
    case OpenCount(name) => (sh, cl.(pc := OpenStore(name, sh.count)))
    case OpenStore(_, n) => (sh.(count := n + 1), cl.(pc := OpenUnlock))
    case OpenUnlock => (sh.(registry := None), cl.(pc := Idle))
    case _ => (sh, cl)
  }

  function StepStart(sh: Shared, c: Cid, cl: Client): (Shared, Client)
    requires |sh.accounts| == MAX_ACCOUNT
  {
    match cl.pc
    case StartWait(name) =>
      if sh.registry.Some? then (sh, cl) else (sh.(registry := Some(c)), cl.(pc := StartSnapshot(name)))
    case StartSnapshot(name) => (sh, cl.(pc := StartUnlock(name, sh.count)))
    case StartUnlock(name, n) => (sh.(registry := None), cl.(pc := StartSearch(name, n, 0)))
    case StartSearch(name, n, k) =>
      if k == n then (sh, cl.(pc := Idle))
      else if At(sh, k).name == name then (sh, cl.(pc := StartTry(name, k)))
      else (sh, cl.(pc := StartSearch(name, n, k + 1)))
    case StartTry(name, index) =>
      if At(sh, index).owner.Some? then (sh, cl)
      else (Put(sh, index, At(sh, index).(owner := Some(c))), cl.(pc := StartFlag(name, index)))
    case StartFlag(name, index) =>
      (Put(sh, index, At(sh, index).(inSession := true)), Client(Idle, Some(index)))
    case _ => (sh, cl)
  }

  function StepSession(sh: Shared, cl: Client): (Shared, Client)
    requires |sh.accounts| == MAX_ACCOUNT && cl.account.Some?
  {
    var a := cl.account.value;
    var x := At(sh, a);
    match cl.pc
    case DebitTest(amount) =>
      if x.balance - amount < 0.0 then (sh, cl.(pc := Idle)) else (sh, cl.(pc := DebitRead(amount)))
    case DebitRead(amount) => (sh, cl.(pc := DebitWrite(amount, x.balance)))
    case DebitWrite(amount, seen) =>
      (Put(sh, a, x.(balance := seen - amount)), cl.(pc := Respond(-amount)))
    case CreditRead(amount) => (sh, cl.(pc := CreditWrite(amount, x.balance)))
    case CreditWrite(amount, seen) =>
      (Put(sh, a, x.(balance := seen + amount)), cl.(pc := Respond(amount)))
    case Respond(delta) => (sh.(acks := sh.acks + [Ack(a, delta)]), cl.(pc := Idle))
    case FinishFlag(exit) => (Put(sh, a, x.(inSession := false)), cl.(pc := FinishUnlock(exit)))
    case FinishUnlock(exit) =>
      (Put(sh, a, x.(owner := None)), Client(if exit then Exited else Idle, None))
    case _ => (sh, cl)
  }

  predicate Opening(pc: Pc) {
    pc.OpenWait? || pc.OpenCheck? || pc.OpenSearch? || Writing(pc) || pc.OpenUnlock?
  }

  /** account_open and the increment of the number of accounts. */
  predicate Writing(pc: Pc) {
    pc.OpenInit? || pc.OpenName? || pc.OpenBalance? || pc.OpenFlag? || pc.OpenCount? || pc.OpenStore?
  }

  predicate Starting(pc: Pc) {
    || pc.StartWait? || pc.StartSnapshot? || pc.StartUnlock? || pc.StartSearch?
    || pc.StartTry? || pc.StartFlag?
  }

  /** One step of client c. A request matters only at the head of the loop; a client that must
      wait for a lock stays as it is. */
  function ClientStep(sh: Shared, c: Cid, cl: Client, r: Request): (next: (Shared, Client))
    requires |sh.accounts| == MAX_ACCOUNT
    ensures |next.0.accounts| == MAX_ACCOUNT
  {
    if cl.pc.Idle? then (sh, Receive(sh, cl, r))
    else if Opening(cl.pc) then StepOpen(sh, c, cl)
    else if Starting(cl.pc) then StepStart(sh, c, cl)
    else if cl.pc.Exited? || cl.account.None? then (sh, cl)
    else StepSession(sh, cl)
  }

  datatype Event = Connect(c: Cid) | Run(c: Cid, r: Request)

  predicate Possible(s: State, ev: Event) {
    match ev
    case Connect(c) => c !in s.clients
    case Run(c, r) => c in s.clients && Sendable(r)
  }

  function Apply(s: State, ev: Event): State
    requires |s.shared.accounts| == MAX_ACCOUNT && Possible(s, ev)
  {
    match ev
    case Connect(c) => s.(clients := s.clients[c := Client(Idle, None)])
    case Run(c, r) =>
      var (sh, cl) := ClientStep(s.shared, c, s.clients[c], r);
      State(sh, s.clients[c := cl])
  }

  predicate Initial(s: State) {
    && |s.shared.accounts| == MAX_ACCOUNT && s.shared.count == 0
    && s.shared.registry == None && s.shared.acks == [] && s.clients == map[]
    && forall i | 0 <= i < MAX_ACCOUNT :: !s.shared.accounts[i].inSession && s.shared.accounts[i].owner == None
  }

  ghost predicate IsRun(states: seq<State>, events: seq<Event>) {
    && |states| == |events| + 1 && Initial(states[0])
    && forall k | 0 <= k < |events| ::
         && |states[k].shared.accounts| == MAX_ACCOUNT
         && Possible(states[k], events[k])
         && states[k + 1] == Apply(states[k], events[k])
  }
}
