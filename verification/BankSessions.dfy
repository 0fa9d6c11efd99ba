/** What each request comes to, from the head of the request loop back to it, when no other client
    interferes. The outcomes are told as names, balances, owners and flags. */
module BankSessions {
  import opened Options
  import opened Bank
  import opened BankSafety
  import opened BankRequests

  /** At the head of its loop, or gone. */
  predicate AtRest(cl: Client) {
    cl.pc.Idle? || cl.pc.Exited?
  }

  /** Request r of client cl, served without interruption, leaves the shared memory t and the
      client x. */
  ghost predicate Serves(sh: Shared, c: Cid, cl: Client, r: Request, t: Shared, x: Client)
    requires |sh.accounts| == MAX_ACCOUNT
  {
    && cl.pc.Idle? && AtRest(x)
    && var (u, y) := ClientStep(sh, c, cl, r);
       Leads(u, c, y, (t, x))
  }

  // ----- A request has one outcome -----

  lemma {:induction false} StaysAtRest(sh: Shared, c: Cid, x: Client, n: nat)
    requires |sh.accounts| == MAX_ACCOUNT && AtRest(x)
    ensures Alone(sh, c, x, n) == (sh, x)
  {
    if n > 0 { StaysAtRest(sh, c, x, n - 1); }
  }

  lemma {:induction false} SameRest(sh: Shared, c: Cid, cl: Client, m: nat, n: nat)
    requires |sh.accounts| == MAX_ACCOUNT && m <= n && AtRest(Alone(sh, c, cl, m).1)
    ensures Alone(sh, c, cl, n) == Alone(sh, c, cl, m)
    decreases m
  {
    if m == 0 {
      StaysAtRest(sh, c, cl, n);
    } else {
      var (t, x) := ClientStep(sh, c, cl, Balance);
      SameRest(t, c, x, m - 1, n - 1);
    }
  }

  lemma OneOutcome(sh: Shared, c: Cid, cl: Client, r: Request, t: Shared, x: Client, u: Shared, y: Client)
    requires |sh.accounts| == MAX_ACCOUNT && Serves(sh, c, cl, r, t, x) && Serves(sh, c, cl, r, u, y)
    ensures t == u && x == y
  {
    var (s, z) := ClientStep(sh, c, cl, r);
    var m: nat :| Alone(s, c, z, m) == (t, x);
    var n: nat :| Alone(s, c, z, n) == (u, y);
    if m <= n { SameRest(s, c, z, m, n); } else { SameRest(s, c, z, n, m); }
  }

  lemma AtOnce(sh: Shared, c: Cid, cl: Client, r: Request, x: Client)
    requires |sh.accounts| == MAX_ACCOUNT && cl.pc.Idle? && AtRest(x) && ClientStep(sh, c, cl, r) == (sh, x)
    ensures Serves(sh, c, cl, r, sh, x)
  {
    Here(sh, c, x);
  }

  /** Nothing is different but account a, and there neither the name. */
  ghost predicate OnlyAccount(sh: Shared, t: Shared, a: nat) {
    && |t.accounts| == |sh.accounts| && a < |sh.accounts|
    && t.count == sh.count && t.registry == sh.registry
    && t.accounts[a].name == sh.accounts[a].name
    && forall i | 0 <= i < |sh.accounts| && i != a :: t.accounts[i] == sh.accounts[i]
  }

  // ----- In session -----

  /** The client is in session with account a and waits for a request. */
  ghost predicate InSessionWith(sh: Shared, c: Cid, a: nat) {
    && TableOk(sh) && a < sh.count
    && sh.accounts[a].inSession && sh.accounts[a].owner == Some(c)
  }

  /** A debit takes its amount from the balance if it is there, and is acknowledged; otherwise
      nothing happens. */
  lemma DebitServed(sh: Shared, c: Cid, a: nat, amount: real) returns (t: Shared)
    requires InSessionWith(sh, c, a)
    ensures Serves(sh, c, Client(Idle, Some(a)), Debit(amount), t, Client(Idle, Some(a)))
    ensures amount > sh.accounts[a].balance ==> t == sh
    ensures amount <= sh.accounts[a].balance ==>
              && OnlyAccount(sh, t, a)
              && t.accounts[a].balance == sh.accounts[a].balance - amount
              && t.accounts[a].inSession && t.accounts[a].owner == Some(c)
              && t.acks == sh.acks + [Ack(a, -amount)]
  {
    DebitAlone(sh, c, a, amount);
    t := if sh.accounts[a].balance < amount then sh else Acked(sh, a, -amount);
  }

  /** A credit adds its amount to the balance, and is acknowledged. */
  lemma CreditServed(sh: Shared, c: Cid, a: nat, amount: real) returns (t: Shared)
    requires InSessionWith(sh, c, a)
    ensures Serves(sh, c, Client(Idle, Some(a)), Credit(amount), t, Client(Idle, Some(a)))
    ensures OnlyAccount(sh, t, a) && t.accounts[a].balance == sh.accounts[a].balance + amount
    ensures t.accounts[a].inSession && t.accounts[a].owner == Some(c)
    ensures t.acks == sh.acks + [Ack(a, amount)]
  {
    CreditAlone(sh, c, a, amount);
    t := Acked(sh, a, amount);
  }

  /** Finish, exit and the end of the connection give the account back; only after finish does the
      client go on. */
  lemma FinishServed(sh: Shared, c: Cid, a: nat, r: Request) returns (t: Shared, x: Client)
    requires InSessionWith(sh, c, a) && r in {Finish, Exit, Hangup}
    ensures Serves(sh, c, Client(Idle, Some(a)), r, t, x)
    ensures x.account == None && (x.pc.Idle? <==> r == Finish)
    ensures OnlyAccount(sh, t, a) && t.accounts[a].balance == sh.accounts[a].balance && t.acks == sh.acks
    ensures t.accounts[a].owner == None && !t.accounts[a].inSession
  {
    var free := sh.(accounts := sh.accounts[a := sh.accounts[a].(owner := None, inSession := false)]);
    assert InSession(free, a, c).accounts == sh.accounts;
    t, x := free, Client(if r == Finish then Idle else Exited, None);
    FinishAlone(free, c, a, r != Finish);
  }

  /** The balance may be asked for, nobody can open or start another account, and none of this
      changes anything. */
  lemma OthersRefused(sh: Shared, c: Cid, a: nat, r: Request)
    requires InSessionWith(sh, c, a) && (r == Balance || r.Open? || r.Start?)
    ensures Serves(sh, c, Client(Idle, Some(a)), r, sh, Client(Idle, Some(a)))
  {
    AtOnce(sh, c, Client(Idle, Some(a)), r, Client(Idle, Some(a)));
  }

  // ----- Out of session -----

  /** No account in use has the name. */
  predicate NameFree(sh: Shared, name: string)
    requires sh.count <= |sh.accounts|
  {
    forall i | 0 <= i < sh.count :: sh.accounts[i].name != name
  }

  /** Open adds one account of that name, with balance 0 and in nobody's session, at the end of the
      table, unless it has 20 accounts or one of that name. */
  lemma OpenServed(sh: Shared, c: Cid, name: string) returns (t: Shared)
    requires TableOk(sh) && sh.registry == None
    ensures Serves(sh, c, Client(Idle, None), Open(name), t, Client(Idle, None))
    ensures sh.count >= 20 || !NameFree(sh, name) ==> t == sh
    ensures sh.count < 20 && NameFree(sh, name) ==>
              && |t.accounts| == 20 && t.count == sh.count + 1
              && t.accounts[sh.count].name == name && t.accounts[sh.count].balance == 0.0
              && t.accounts[sh.count].owner == None && !t.accounts[sh.count].inSession
              && (forall i | 0 <= i < 20 && i != sh.count :: t.accounts[i] == sh.accounts[i])
              && t.registry == None && t.acks == sh.acks
  {
    OpenAlone(sh, c, name);
    t := Opened(sh, name);
  }

  /** Start leads into a session with the account of that name if nobody is in session with it, and
      back to the head of the loop if there is no such account. */
  lemma StartServed(sh: Shared, c: Cid, name: string) returns (t: Shared, x: Client)
    requires TableOk(sh) && sh.registry == None
    requires forall i | 0 <= i < sh.count && sh.accounts[i].name == name :: sh.accounts[i].owner == None
    ensures Serves(sh, c, Client(Idle, None), Start(name), t, x) && x.pc.Idle?
    ensures NameFree(sh, name) ==> t == sh && x.account == None
    ensures !NameFree(sh, name) ==>
              && x.account.Some? && OnlyAccount(sh, t, x.account.value)
              && InSessionWith(t, c, x.account.value) && t.accounts[x.account.value].name == name
              && t.accounts[x.account.value].balance == sh.accounts[x.account.value].balance
              && t.acks == sh.acks
  {
    StartAlone(sh, c, name);
    var k := FirstNamed(sh.accounts, sh.count, name);
    t, x := Started(sh, c, name).0, Started(sh, c, name).1;
  }

  /** If somebody is, the client waits, and has changed nothing. */
  lemma StartWaits(sh: Shared, c: Cid, name: string, i: nat, d: Cid) returns (x: Client)
    requires TableOk(sh) && sh.registry == None
    requires i < sh.count && sh.accounts[i].name == name && sh.accounts[i].owner == Some(d)
    ensures var (u, y) := ClientStep(sh, c, Client(Idle, None), Start(name)); Leads(u, c, y, (sh, x))
    ensures x.account == None && forall r :: ClientStep(sh, c, x, r) == (sh, x)
    ensures WaitsFor(State(sh, map[c := x]), c, d)
  {
    StartAlone(sh, c, name);
    var k := FirstNamed(sh.accounts, sh.count, name);
    assert k == i;
    x := Client(StartTry(name, i), None);
  }

  /** Once the account is free the wait ends in a session with it. */
  lemma WaitEnds(sh: Shared, c: Cid, name: string, i: nat) returns (t: Shared)
    requires TableOk(sh) && i < sh.count && sh.accounts[i].name == name && sh.accounts[i].owner == None
    ensures Leads(sh, c, Client(StartTry(name, i), None), (t, Client(Idle, Some(i))))
    ensures OnlyAccount(sh, t, i) && InSessionWith(t, c, i)
    ensures t.accounts[i].balance == sh.accounts[i].balance && t.acks == sh.acks
  {
    LockAlone(sh, c, name, i);
    t := InSession(sh, i, c);
  }

  /** Without a session there is nothing to debit, credit, ask for or finish. */
  lemma NothingToServe(sh: Shared, c: Cid, account: Option<nat>, r: Request)
    requires TableOk(sh) && (r.Debit? || r.Credit? || r == Balance || r == Finish)
    requires account.Some? ==> account.value < sh.count && !sh.accounts[account.value].inSession
    ensures Serves(sh, c, Client(Idle, account), r, sh, Client(Idle, account))
  {
    AtOnce(sh, c, Client(Idle, account), r, Client(Idle, account));
  }

  lemma Leaves(sh: Shared, c: Cid, r: Request)
    requires TableOk(sh) && (r == Exit || r == Hangup)
    ensures Serves(sh, c, Client(Idle, None), r, sh, Client(Exited, None))
  {
    AtOnce(sh, c, Client(Idle, None), r, Client(Exited, None));
  }

  // ----- Debit and credit, whatever the other clients do -----

  /** What a request is to do to a balance. */
  function Due(r: Request, balance: real): real {
    match r
    case Debit(amount) => if amount <= balance then -amount else 0.0
    case Credit(amount) => amount
    case _ => 0.0
  }

  /** Client c is at work on request r, or has just served it; when it began, account a had this
      balance and its acknowledged updates this sum. */
  ghost predicate Doing(s: State, c: Cid, r: Request, a: nat, balance: real, sum: real) {
    && c in s.clients && s.clients[c].account == Some(a) && |s.shared.accounts| == MAX_ACCOUNT && a < MAX_ACCOUNT
    && var now, told := s.shared.accounts[a].balance, Sum(s.shared.acks, a);
       match s.clients[c].pc
       case DebitTest(amount) => r == Debit(amount) && now == balance && told == sum
       case DebitRead(amount) => r == Debit(amount) && amount <= balance && now == balance && told == sum
       case DebitWrite(amount, seen) =>
         r == Debit(amount) && amount <= balance && seen == now == balance && told == sum
       case CreditRead(amount) => r == Credit(amount) && now == balance && told == sum
       case CreditWrite(amount, seen) => r == Credit(amount) && seen == now == balance && told == sum
       case Respond(delta) => delta == Due(r, balance) && now == balance + delta && told == sum
       case Idle => now == balance + Due(r, balance) && told == sum + Due(r, balance)
       case _ => false
  }

  lemma Begins(s: State, c: Cid, r: Request, a: nat)
    requires Inv(s) && Possible(s, Run(c, r)) && (r.Debit? || r.Credit?)
    requires s.clients[c].pc.Idle? && s.clients[c].account == Some(a)
    ensures a < s.shared.count
    ensures Doing(Apply(s, Run(c, r)), c, r, a, s.shared.accounts[a].balance, Sum(s.shared.acks, a))
    ensures !Apply(s, Run(c, r)).clients[c].pc.Idle?
  {
    assert LocalOk(s.shared, c, s.clients[c]);
  }

  lemma GoesOn(s: State, c: Cid, q: Request, r: Request, a: nat, balance: real, sum: real)
    requires Inv(s) && Possible(s, Run(c, q))
    requires Doing(s, c, r, a, balance, sum) && !s.clients[c].pc.Idle?
    ensures Doing(Apply(s, Run(c, q)), c, r, a, balance, sum)
  {
    var x := s.clients[c];
    assert LocalOk(s.shared, c, x);
    if x.pc.Respond? { SumAppend(s.shared.acks, Ack(a, x.pc.delta), a); }
  }

  lemma AcksOf(sh: Shared, d: Cid, x: Client, q: Request)
    requires TableOk(sh) && LocalOk(sh, d, x)
    ensures var t := ClientStep(sh, d, x, q).0;
            || t.acks == sh.acks
            || (x.account.Some? && x.pc.Respond? && t.acks == sh.acks + [Ack(x.account.value, x.pc.delta)])
  {
  }

  lemma OthersLeaveIt(s: State, c: Cid, d: Cid, q: Request, r: Request, a: nat, balance: real, sum: real)
    requires Inv(s) && Possible(s, Run(d, q)) && c != d && Doing(s, c, r, a, balance, sum)
    ensures Doing(Apply(s, Run(d, q)), c, r, a, balance, sum)
  {
    assert LocalOk(s.shared, c, s.clients[c]) && LocalOk(s.shared, d, s.clients[d]);
    var t := Apply(s, Run(d, q));
    StepKeeps(s.shared, d, s.clients[d], q);
    AcksOf(s.shared, d, s.clients[d], q);
    var x := s.clients[d];
    if x.pc.Respond? { SumAppend(s.shared.acks, Ack(x.account.value, x.pc.delta), a); }
    assert t.shared.accounts[a] == s.shared.accounts[a];
  }

  lemma DoingKept(s: State, ev: Event, c: Cid, r: Request, a: nat, balance: real, sum: real)
    requires Inv(s) && Possible(s, ev)
    requires Doing(s, c, r, a, balance, sum) && !s.clients[c].pc.Idle?
    ensures Doing(Apply(s, ev), c, r, a, balance, sum)
  {
    match ev
    case Connect(d) =>
    case Run(d, q) =>
      if d == c { GoesOn(s, c, q, r, a, balance, sum); } else { OthersLeaveIt(s, c, d, q, r, a, balance, sum); }
  }

  /** Client c sends request r after j events and is at the head of its loop again after k. */
  ghost predicate IsUpdate(states: seq<State>, events: seq<Event>, c: Cid, r: Request, a: nat, j: nat, k: nat) {
    && IsRun(states, events) && j < k < |states| && events[j] == Run(c, r) && (r.Debit? || r.Credit?)
    && c in states[j].clients && states[j].clients[c] == Client(Idle, Some(a))
    && forall i | j < i < k :: c in states[i].clients && !states[i].clients[c].pc.Idle?
  }

  lemma {:induction false} DoingThroughout(states: seq<State>, events: seq<Event>, c: Cid, r: Request, a: nat,
                                           j: nat, k: nat)
    requires IsUpdate(states, events, c, r, a, j, k)
    ensures Inv(states[j]) && a < states[j].shared.count
    ensures Doing(states[k], c, r, a, states[j].shared.accounts[a].balance, Sum(states[j].shared.acks, a))
    decreases k
  {
    RunInv(states, events, j);
    RunInv(states, events, k - 1);
    Begins(states[j], c, r, a);
    if j + 1 < k {
      var balance, sum := states[j].shared.accounts[a].balance, Sum(states[j].shared.acks, a);
      DoingThroughout(states, events, c, r, a, j, k - 1);
      DoingKept(states[k - 1], events[k - 1], c, r, a, balance, sum);
    }
  }

  /** In every run, whatever the other clients do meanwhile: a debit that is covered lowers the
      balance of its account by its amount, one that is not changes nothing, a credit raises it by
      its amount; and just that is acknowledged. */
  lemma UpdateExact(states: seq<State>, events: seq<Event>, c: Cid, r: Request, a: nat, j: nat, k: nat)
    requires IsUpdate(states, events, c, r, a, j, k) && c in states[k].clients && states[k].clients[c].pc.Idle?
    ensures Inv(states[j]) && Inv(states[k]) && a < states[j].shared.count && states[k].clients[c].account == Some(a)
    ensures var before, after := states[j].shared.accounts[a].balance, states[k].shared.accounts[a].balance;
            && (r.Debit? && r.amount <= before ==> after == before - r.amount)
            && (r.Debit? && r.amount > before ==> after == before)
            && (r.Credit? ==> after == before + r.amount)
            && Sum(states[k].shared.acks, a) - Sum(states[j].shared.acks, a) == after - before
  {
    DoingThroughout(states, events, c, r, a, j, k);
    RunInv(states, events, k);
  }
}
