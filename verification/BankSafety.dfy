/** What every interleaving of clients keeps, and what follows from it. */
module BankSafety {
  import opened Options
  import opened Bank

  /** The part of open and start that runs under the registry mutex. */
  predicate InRegistry(pc: Pc) {
    || pc.OpenCheck? || pc.OpenSearch? || Writing(pc) || pc.OpenUnlock?
    || pc.StartSnapshot? || pc.StartUnlock?
  }

  predicate Transacting(pc: Pc) {
    || pc.DebitTest? || pc.DebitRead? || pc.DebitWrite? || pc.CreditRead? || pc.CreditWrite?
    || pc.Respond? || pc.FinishFlag? || pc.FinishUnlock?
  }

  /** The client has the session mutex of account a. */
  predicate Holds(cl: Client, a: nat) {
    cl.account == Some(a) || (cl.pc.StartFlag? && cl.pc.index == a)
  }

  /** No account below k has the name. */
  predicate NotAmong(sh: Shared, name: string, k: nat)
    requires k <= |sh.accounts|
  {
    forall j | 0 <= j < k :: sh.accounts[j].name != name
  }

  /** The name is to be entered at the first free slot, index. */
  predicate IsNew(sh: Shared, name: string, index: nat)
    requires |sh.accounts| == MAX_ACCOUNT
  {
    index == sh.count < MAX_ACCOUNT && NotAmong(sh, name, index)
  }

  function Sum(acks: seq<Ack>, a: nat): real {
    if acks == [] then 0.0
    else
      var last := acks[|acks| - 1];
      Sum(acks[..|acks| - 1], a) + if last.account == a then last.delta else 0.0
  }

  ghost predicate TableOk(sh: Shared) {
    && |sh.accounts| == MAX_ACCOUNT && sh.count <= MAX_ACCOUNT
    && forall i, j | 0 <= i < j < sh.count :: sh.accounts[i].name != sh.accounts[j].name
  }

  /** What a client knows at each point about the shared memory. */
  predicate PcOk(sh: Shared, c: Cid, cl: Client)
    requires |sh.accounts| == MAX_ACCOUNT && sh.count <= MAX_ACCOUNT
    requires cl.account.Some? ==> cl.account.value < MAX_ACCOUNT
    requires Transacting(cl.pc) ==> cl.account.Some?
  {
    match cl.pc
    case OpenSearch(name, n, k) => n == sh.count < MAX_ACCOUNT && k <= n && NotAmong(sh, name, k)
    case OpenInit(name, index) => IsNew(sh, name, index)
    case OpenName(name, index) => IsNew(sh, name, index) && sh.accounts[index].owner == None
    case OpenBalance(name, index) =>
      IsNew(sh, name, index) && sh.accounts[index].owner == None && sh.accounts[index].name == name
    case OpenFlag(name, index) =>
      && IsNew(sh, name, index)
      && sh.accounts[index] == Account(name, 0.0, sh.accounts[index].inSession, None)
    case OpenCount(name) => IsNew(sh, name, sh.count) && sh.accounts[sh.count] == Account(name, 0.0, false, None)
    case OpenStore(name, n) => IsNew(sh, name, n) && sh.accounts[n] == Account(name, 0.0, false, None)
    case StartUnlock(name, n) => n <= sh.count
    case StartSearch(name, n, k) => k <= n <= sh.count && NotAmong(sh, name, k)
    case StartTry(name, index) => index < sh.count && sh.accounts[index].name == name
    case StartFlag(name, index) =>
      index < sh.count && sh.accounts[index].name == name && sh.accounts[index].owner == Some(c)
    case DebitTest(amount) => amount >= 0.0
    case DebitRead(amount) => 0.0 <= amount <= sh.accounts[cl.account.value].balance
    case DebitWrite(amount, seen) => seen == sh.accounts[cl.account.value].balance && 0.0 <= amount <= seen
    case CreditRead(amount) => amount >= 0.0
    case CreditWrite(amount, seen) => seen == sh.accounts[cl.account.value].balance && amount >= 0.0
    case _ => true
  }

  predicate LocalOk(sh: Shared, c: Cid, cl: Client)
    requires |sh.accounts| == MAX_ACCOUNT && sh.count <= MAX_ACCOUNT
  {
    && (InRegistry(cl.pc) <==> sh.registry == Some(c))
    && (Opening(cl.pc) || Starting(cl.pc) || cl.pc.Exited? ==> cl.account == None)
    && (Transacting(cl.pc) ==> cl.account.Some?)
    && (cl.account.Some? ==>
          var a := cl.account.value;
          && a < sh.count && sh.accounts[a].owner == Some(c)
          && (sh.accounts[a].inSession <==> !cl.pc.FinishUnlock?))
    && PcOk(sh, c, cl)
  }

  /** An update written but not yet acknowledged. */
  function InFlight(s: State, a: nat): real
    requires |s.shared.accounts| == MAX_ACCOUNT && a < MAX_ACCOUNT
  {
    match s.shared.accounts[a].owner
    case None => 0.0
    case Some(c) =>
      if c in s.clients && s.clients[c].pc.Respond? && s.clients[c].account == Some(a)
      then s.clients[c].pc.delta else 0.0
  }

  ghost predicate AccountOk(s: State, a: nat)
    requires |s.shared.accounts| == MAX_ACCOUNT && a < MAX_ACCOUNT
  {
    var x := s.shared.accounts[a];
    && (x.owner.Some? ==> a < s.shared.count && x.owner.value in s.clients && Holds(s.clients[x.owner.value], a))
    && (x.inSession ==> x.owner.Some? && x.owner.value in s.clients && s.clients[x.owner.value].account == Some(a))
    && (if a < s.shared.count then x.balance >= 0.0 && x.balance == Sum(s.shared.acks, a) + InFlight(s, a)
        else Sum(s.shared.acks, a) == 0.0)
  }

  ghost predicate Inv(s: State) {
    && TableOk(s.shared)
    && (s.shared.registry.Some? ==> s.shared.registry.value in s.clients)
    && (forall c {:trigger LocalOk(s.shared, c, s.clients[c])} | c in s.clients :: LocalOk(s.shared, c, s.clients[c]))
    && (forall a {:trigger AccountOk(s, a)} | 0 <= a < MAX_ACCOUNT :: AccountOk(s, a))
  }

  lemma InitialInv(s: State)
    requires Initial(s)
    ensures Inv(s)
  {
  }

  lemma ConnectInv(s: State, c: Cid)
    requires Inv(s) && c !in s.clients
    ensures Inv(Apply(s, Connect(c)))
  {
    var t := Apply(s, Connect(c));
    forall d | d in t.clients ensures LocalOk(t.shared, d, t.clients[d]) {
      assert d != c ==> LocalOk(s.shared, d, s.clients[d]);
    }
    forall a | 0 <= a < MAX_ACCOUNT ensures AccountOk(t, a) { assert AccountOk(s, a); }
  }

  // ----- What the other clients notice -----

  /** The ways a step of client c may change the shared memory. */
  ghost predicate Gentle(s: Shared, t: Shared, c: Cid) {
    && TableOk(s) && TableOk(t)
    // The registry mutex is taken or given back by c itself.
    && (s.registry == t.registry || (s.registry in {None, Some(c)} && t.registry in {None, Some(c)}))
    // The table grows, and names in use stay; only the holder of the registry adds to it.
    && s.count <= t.count
    && (forall i | 0 <= i < s.count :: t.accounts[i].name == s.accounts[i].name)
    && (s.registry != Some(c) ==> s.count == t.count && t.accounts[s.count..] == s.accounts[s.count..])
    // An account changes only while nobody else has its mutex.
    && (forall i | 0 <= i < s.count :: t.accounts[i] == s.accounts[i] || s.accounts[i].owner in {None, Some(c)})
  }

  lemma OthersKeep(s: Shared, t: Shared, c: Cid, d: Cid, cl: Client)
    requires Gentle(s, t, c) && c != d && LocalOk(s, d, cl)
    ensures LocalOk(t, d, cl)
  {
    if Writing(cl.pc) {
      assert t.accounts[s.count..][0] == s.accounts[s.count..][0];
    }
  }

  // ----- The client that takes the step -----

  lemma ReceiveKeeps(sh: Shared, c: Cid, cl: Client, r: Request)
    requires TableOk(sh) && LocalOk(sh, c, cl) && cl.pc.Idle? && Sendable(r)
    ensures LocalOk(sh, c, Receive(sh, cl, r)) && Receive(sh, cl, r).account == cl.account
    ensures !Receive(sh, cl, r).pc.Respond? && !Receive(sh, cl, r).pc.StartFlag?
  {
  }

  lemma OpenKeeps(sh: Shared, c: Cid, cl: Client)
    requires TableOk(sh) && LocalOk(sh, c, cl) && Opening(cl.pc) && !Writing(cl.pc)
    ensures var (t, cl') := StepOpen(sh, c, cl);
            && Gentle(sh, t, c) && LocalOk(t, c, cl')
            && (t.registry.Some? ==> t.registry == sh.registry || t.registry == Some(c))
  {
  }

  lemma WriteKeeps(sh: Shared, c: Cid, cl: Client)
    requires TableOk(sh) && LocalOk(sh, c, cl) && Writing(cl.pc) && !cl.pc.OpenCount? && !cl.pc.OpenStore?
    ensures var (t, cl') := StepOpen(sh, c, cl);
            && Gentle(sh, t, c) && LocalOk(t, c, cl') && t.registry == sh.registry
  {
  }

  lemma CountKeeps(sh: Shared, c: Cid, cl: Client)
    requires TableOk(sh) && LocalOk(sh, c, cl) && (cl.pc.OpenCount? || cl.pc.OpenStore?)
    ensures var (t, cl') := StepOpen(sh, c, cl);
            && Gentle(sh, t, c) && LocalOk(t, c, cl') && t.registry == sh.registry
  {
  }

  lemma LookupKeeps(sh: Shared, c: Cid, cl: Client)
    requires TableOk(sh) && LocalOk(sh, c, cl)
    requires cl.pc.StartWait? || cl.pc.StartSnapshot? || cl.pc.StartUnlock? || cl.pc.StartSearch?
    ensures var (t, cl') := StepStart(sh, c, cl);
            && Gentle(sh, t, c) && LocalOk(t, c, cl') && t.accounts == sh.accounts
            && (t.registry.Some? ==> t.registry == sh.registry || t.registry == Some(c))
  {
  }

  lemma LockKeeps(sh: Shared, c: Cid, cl: Client)
    requires TableOk(sh) && LocalOk(sh, c, cl) && (cl.pc.StartTry? || cl.pc.StartFlag?)
    ensures var (t, cl') := StepStart(sh, c, cl);
            && Gentle(sh, t, c) && LocalOk(t, c, cl') && t.registry == sh.registry
  {
  }

  lemma DebitKeeps(sh: Shared, c: Cid, cl: Client)
    requires TableOk(sh) && LocalOk(sh, c, cl)
    requires cl.pc.DebitTest? || cl.pc.DebitRead? || cl.pc.DebitWrite?
    ensures var (t, cl') := StepSession(sh, cl);
            && Gentle(sh, t, c) && LocalOk(t, c, cl') && t.registry == sh.registry
  {
  }

  lemma CreditKeeps(sh: Shared, c: Cid, cl: Client)
    requires TableOk(sh) && LocalOk(sh, c, cl)
    requires cl.pc.CreditRead? || cl.pc.CreditWrite? || cl.pc.Respond?
    ensures var (t, cl') := StepSession(sh, cl);
            && Gentle(sh, t, c) && LocalOk(t, c, cl') && t.registry == sh.registry
  {
  }

  lemma FinishKeeps(sh: Shared, c: Cid, cl: Client)
    requires TableOk(sh) && LocalOk(sh, c, cl) && (cl.pc.FinishFlag? || cl.pc.FinishUnlock?)
    ensures var (t, cl') := StepSession(sh, cl);
            && Gentle(sh, t, c) && LocalOk(t, c, cl') && t.registry == sh.registry
  {
  }

  lemma StepKeeps(sh: Shared, c: Cid, cl: Client, r: Request)
    requires TableOk(sh) && LocalOk(sh, c, cl) && Sendable(r)
    ensures var (t, cl') := ClientStep(sh, c, cl, r);
            && Gentle(sh, t, c) && LocalOk(t, c, cl')
            && (t.registry.Some? ==> t.registry == sh.registry || t.registry == Some(c))
  {
    if cl.pc.Idle? {
      ReceiveKeeps(sh, c, cl, r);
    } else if cl.pc.OpenCount? || cl.pc.OpenStore? {
      CountKeeps(sh, c, cl);
    } else if Writing(cl.pc) {
      WriteKeeps(sh, c, cl);
    } else if Opening(cl.pc) {
      OpenKeeps(sh, c, cl);
    } else if cl.pc.StartTry? || cl.pc.StartFlag? {
      LockKeeps(sh, c, cl);
    } else if Starting(cl.pc) {
      LookupKeeps(sh, c, cl);
    } else if cl.pc.FinishFlag? || cl.pc.FinishUnlock? {
      FinishKeeps(sh, c, cl);
    } else if cl.pc.DebitTest? || cl.pc.DebitRead? || cl.pc.DebitWrite? {
      DebitKeeps(sh, c, cl);
    } else if Transacting(cl.pc) {
      CreditKeeps(sh, c, cl);
    }
  }

  // ----- The accounts -----

  /** Nothing about account a changed, and client c has nothing to do with it. */
  lemma AccountUntouched(s: State, c: Cid, sh: Shared, cl: Client, a: nat)
    requires |s.shared.accounts| == MAX_ACCOUNT == |sh.accounts| && a < MAX_ACCOUNT && c in s.clients
    requires AccountOk(s, a) && sh.accounts[a] == s.shared.accounts[a] && Sum(sh.acks, a) == Sum(s.shared.acks, a)
    requires s.shared.count <= sh.count && (a < sh.count ==> a < s.shared.count)
    requires Holds(s.clients[c], a) ==> Holds(cl, a) && cl.account == s.clients[c].account
    requires s.clients[c].account == Some(a) ==> !s.clients[c].pc.Respond? && !cl.pc.Respond?
    ensures AccountOk(State(sh, s.clients[c := cl]), a)
  {
  }

  lemma SumAppend(acks: seq<Ack>, x: Ack, a: nat)
    ensures Sum(acks + [x], a) == Sum(acks, a) + if x.account == a then x.delta else 0.0
  {
    assert (acks + [x])[..|acks|] == acks;
  }

  lemma OpenAccount(s: State, c: Cid, a: nat)
    requires Inv(s) && c in s.clients && a < MAX_ACCOUNT && Opening(s.clients[c].pc)
    ensures var (sh, cl) := StepOpen(s.shared, c, s.clients[c]);
            |sh.accounts| == MAX_ACCOUNT && AccountOk(State(sh, s.clients[c := cl]), a)
  {
    assert LocalOk(s.shared, c, s.clients[c]) && AccountOk(s, a);
    var (sh, cl) := StepOpen(s.shared, c, s.clients[c]);
    if a != s.shared.count { AccountUntouched(s, c, sh, cl, a); }
  }

  lemma StartAccount(s: State, c: Cid, a: nat)
    requires Inv(s) && c in s.clients && a < MAX_ACCOUNT && Starting(s.clients[c].pc)
    ensures var (sh, cl) := StepStart(s.shared, c, s.clients[c]);
            |sh.accounts| == MAX_ACCOUNT && AccountOk(State(sh, s.clients[c := cl]), a)
  {
    assert LocalOk(s.shared, c, s.clients[c]) && AccountOk(s, a);
    var pc := s.clients[c].pc;
    var (sh, cl) := StepStart(s.shared, c, s.clients[c]);
    if !((pc.StartTry? || pc.StartFlag?) && pc.index == a) { AccountUntouched(s, c, sh, cl, a); }
  }

  lemma SessionAccount(s: State, c: Cid, a: nat)
    requires Inv(s) && c in s.clients && a < MAX_ACCOUNT && Transacting(s.clients[c].pc)
    ensures s.clients[c].account.Some?
    ensures var (sh, cl) := StepSession(s.shared, s.clients[c]);
            |sh.accounts| == MAX_ACCOUNT && AccountOk(State(sh, s.clients[c := cl]), a)
  {
    assert LocalOk(s.shared, c, s.clients[c]) && AccountOk(s, a);
    var x := s.clients[c];
    var (sh, cl) := StepSession(s.shared, x);
    if x.pc.Respond? { SumAppend(s.shared.acks, Ack(x.account.value, x.pc.delta), a); }
    if x.account.value != a {
      AccountUntouched(s, c, sh, cl, a);
    } else if x.pc.FinishFlag? || x.pc.FinishUnlock? {
      FinishAccount(s, c, a);
    } else {
      UpdateAccount(s, c, a);
    }
  }

  lemma UpdateAccount(s: State, c: Cid, a: nat)
    requires TableOk(s.shared) && c in s.clients && a < MAX_ACCOUNT && s.clients[c].account == Some(a)
    requires LocalOk(s.shared, c, s.clients[c]) && AccountOk(s, a) && Transacting(s.clients[c].pc)
    requires !s.clients[c].pc.FinishFlag? && !s.clients[c].pc.FinishUnlock?
    ensures var (sh, cl) := StepSession(s.shared, s.clients[c]);
            |sh.accounts| == MAX_ACCOUNT && AccountOk(State(sh, s.clients[c := cl]), a)
  {
    var x := s.clients[c];
    if x.pc.Respond? { SumAppend(s.shared.acks, Ack(a, x.pc.delta), a); }
  }

  lemma FinishAccount(s: State, c: Cid, a: nat)
    requires TableOk(s.shared) && c in s.clients && a < MAX_ACCOUNT && s.clients[c].account == Some(a)
    requires LocalOk(s.shared, c, s.clients[c]) && AccountOk(s, a)
    requires s.clients[c].pc.FinishFlag? || s.clients[c].pc.FinishUnlock?
    ensures var (sh, cl) := StepSession(s.shared, s.clients[c]);
            |sh.accounts| == MAX_ACCOUNT && AccountOk(State(sh, s.clients[c := cl]), a)
  {
  }

  lemma StepAccounts(s: State, c: Cid, r: Request, a: nat)
    requires Inv(s) && c in s.clients && Sendable(r) && a < MAX_ACCOUNT
    ensures |Apply(s, Run(c, r)).shared.accounts| == MAX_ACCOUNT && AccountOk(Apply(s, Run(c, r)), a)
  {
    var x := s.clients[c];
    assert LocalOk(s.shared, c, x) && AccountOk(s, a);
    if x.pc.Idle? {
      ReceiveKeeps(s.shared, c, x, r);
      AccountUntouched(s, c, s.shared, Receive(s.shared, x, r), a);
    } else if Opening(x.pc) {
      OpenAccount(s, c, a);
    } else if Starting(x.pc) {
      StartAccount(s, c, a);
    } else if Transacting(x.pc) {
      SessionAccount(s, c, a);
    } else {
      AccountUntouched(s, c, s.shared, x, a);
    }
  }

  // ----- Every run -----

  lemma StepInv(s: State, ev: Event)
    requires Inv(s) && Possible(s, ev)
    ensures Inv(Apply(s, ev))
  {
    match ev
    case Connect(c) => ConnectInv(s, c);
    case Run(c, r) =>
      var t := Apply(s, ev);
      StepKeeps(s.shared, c, s.clients[c], r);
      forall d | d in t.clients ensures LocalOk(t.shared, d, t.clients[d]) {
        if d != c { OthersKeep(s.shared, t.shared, c, d, s.clients[d]); }
      }
      forall a | 0 <= a < MAX_ACCOUNT ensures AccountOk(t, a) {
        StepAccounts(s, c, r, a);
      }
  }

  lemma {:induction false} RunInv(states: seq<State>, events: seq<Event>, k: nat)
    requires IsRun(states, events) && k < |states|
    ensures Inv(states[k])
  {
    if k == 0 {
      InitialInv(states[0]);
    } else {
      RunInv(states, events, k - 1);
      StepInv(states[k - 1], events[k - 1]);
    }
  }

  // ----- What follows -----

  /** No account has two clients: a client at the head of its loop with an account holds that
      account's mutex, the account is marked in session, and no other client has it. */
  lemma SessionExclusive(s: State, c: Cid, d: Cid)
    requires Inv(s) && c in s.clients && d in s.clients && s.clients[c].account.Some?
    requires s.clients[d].account == s.clients[c].account
    ensures c == d
    ensures var a := s.clients[c].account.value;
            && a < s.shared.count && s.shared.accounts[a].owner == Some(c)
            && (s.clients[c].pc.Idle? ==> s.shared.accounts[a].inSession)
  {
    assert LocalOk(s.shared, c, s.clients[c]) && LocalOk(s.shared, d, s.clients[d]);
  }

  /** No update is lost: but for an update that its client has not been told of yet, a balance is
      the sum of the acknowledged credits and debits, and it is never negative. */
  lemma NoLostUpdate(s: State, a: nat)
    requires Inv(s) && a < s.shared.count
    ensures s.shared.accounts[a].balance >= 0.0
    ensures (forall c | c in s.clients :: !(s.clients[c].pc.Respond? && s.clients[c].account == Some(a))) ==>
              s.shared.accounts[a].balance == Sum(s.shared.acks, a)
  {
    assert AccountOk(s, a);
  }

  /** What the owner of an account is told when it asks for the balance. */
  lemma BalanceReportIsExact(s: State, c: Cid)
    requires Inv(s) && c in s.clients && s.clients[c].pc.Idle? && s.clients[c].account.Some?
    ensures var a := s.clients[c].account.value;
            a < s.shared.count && s.shared.accounts[a].balance == Sum(s.shared.acks, a)
  {
    assert LocalOk(s.shared, c, s.clients[c]);
    assert AccountOk(s, s.clients[c].account.value);
  }

  // ----- Waiting -----

  /** Client c cannot go on before client d gives up a mutex. */
  predicate WaitsFor(s: State, c: Cid, d: Cid)
    requires c in s.clients && |s.shared.accounts| == MAX_ACCOUNT
  {
    match s.clients[c].pc
    case OpenWait(_) => s.shared.registry == Some(d)
    case StartWait(_) => s.shared.registry == Some(d)
    case StartTry(_, index) => At(s.shared, index).owner == Some(d)
    case _ => false
  }

  /** No deadlock: whoever waits holds no mutex, and whoever is waited for is not waiting. */
  lemma NoHoldAndWait(s: State, c: Cid, d: Cid)
    requires Inv(s) && c in s.clients && WaitsFor(s, c, d)
    ensures d in s.clients && d != c
    ensures s.shared.registry != Some(c) && forall a | 0 <= a < MAX_ACCOUNT :: s.shared.accounts[a].owner != Some(c)
    ensures forall f :: !WaitsFor(s, d, f)
  {
    assert LocalOk(s.shared, c, s.clients[c]);
    forall a | 0 <= a < MAX_ACCOUNT ensures s.shared.accounts[a].owner != Some(c) {
      assert AccountOk(s, a);
    }
    if s.clients[c].pc.StartTry? { assert AccountOk(s, s.clients[c].pc.index); }
    assert LocalOk(s.shared, d, s.clients[d]);
  }

  /** A client that neither waits for a mutex nor for a request goes on. */
  lemma Progress(s: State, c: Cid, r: Request)
    requires Inv(s) && c in s.clients && Sendable(r)
    requires !s.clients[c].pc.Idle? && !s.clients[c].pc.Exited? && forall d :: !WaitsFor(s, c, d)
    ensures Apply(s, Run(c, r)) != s
  {
    var x := s.clients[c];
    assert LocalOk(s.shared, c, x);
    assert x.pc.OpenWait? || x.pc.StartWait? ==>
      (s.shared.registry.Some? ==> WaitsFor(s, c, s.shared.registry.value));
    assert x.pc.StartTry? ==>
      (At(s.shared, x.pc.index).owner.Some? ==> WaitsFor(s, c, At(s.shared, x.pc.index).owner.value));
    StepMoves(s.shared, c, x, r);
  }

  lemma StepMoves(sh: Shared, c: Cid, cl: Client, r: Request)
    requires TableOk(sh) && LocalOk(sh, c, cl) && !cl.pc.Idle? && !cl.pc.Exited?
    requires cl.pc.OpenWait? || cl.pc.StartWait? ==> sh.registry == None
    requires cl.pc.StartTry? ==> At(sh, cl.pc.index).owner == None
    ensures ClientStep(sh, c, cl, r).1 != cl
  {
  }

  // ----- The registry -----

  /** The table only grows, up to its 20 slots, and a name in use never changes. */
  lemma TableGrows(s: State, ev: Event)
    requires Inv(s) && Possible(s, ev)
    ensures var t := Apply(s, ev);
            && s.shared.count <= t.shared.count <= 20 == |t.shared.accounts|
            && forall i | 0 <= i < s.shared.count :: t.shared.accounts[i].name == s.shared.accounts[i].name
  {
    if ev.Run? {
      assert LocalOk(s.shared, ev.c, s.clients[ev.c]);
      StepKeeps(s.shared, ev.c, s.clients[ev.c], ev.r);
    }
  }

  /** The search of start runs outside the registry mutex, on a number of accounts that may be out
      of date. It is right all the same: it finds the one account of that name, or the name was
      not in the table when the number was read. */
  lemma SearchOutsideLock(s: State, c: Cid)
    requires Inv(s) && c in s.clients
    ensures s.clients[c].pc.StartSearch? && s.clients[c].pc.k == s.clients[c].pc.n ==>
              s.clients[c].pc.n <= s.shared.count && NotAmong(s.shared, s.clients[c].pc.name, s.clients[c].pc.n)
    ensures s.clients[c].pc.StartTry? ==>
              var StartTry(name, index) := s.clients[c].pc;
              && index < s.shared.count && s.shared.accounts[index].name == name
              && forall i | 0 <= i < s.shared.count && s.shared.accounts[i].name == name :: i == index
  {
    assert LocalOk(s.shared, c, s.clients[c]);
  }

  /** In every run the table of an earlier state is a prefix of that of a later one, as far as
      names go. */
  lemma {:induction false} NamesArePermanent(states: seq<State>, events: seq<Event>, j: nat, k: nat)
    requires IsRun(states, events) && j <= k < |states|
    ensures Inv(states[j]) && Inv(states[k]) && states[j].shared.count <= states[k].shared.count
    ensures forall i | 0 <= i < states[j].shared.count ::
              states[k].shared.accounts[i].name == states[j].shared.accounts[i].name
    decreases k
  {
    RunInv(states, events, j);
    RunInv(states, events, k);
    if j < k {
      NamesArePermanent(states, events, j, k - 1);
      TableGrows(states[k - 1], events[k - 1]);
    }
  }
}
