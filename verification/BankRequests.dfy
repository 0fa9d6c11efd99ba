/** The requests as the program serves them one at a time, and that a client left alone by the
    others takes the same course step by step. */
module BankRequests {
  import opened Options
  import opened Bank
  import opened BankSafety

  /** The first of the n accounts that has the name, n when none has. */
  function FirstNamed(accounts: seq<Account>, n: nat, name: string): (k: nat)
    requires n <= |accounts|
    ensures k <= n && (k < n ==> accounts[k].name == name)
    ensures forall j | 0 <= j < k :: accounts[j].name != name
  {
    if n == 0 then 0
    else
      var k := FirstNamed(accounts, n - 1, name);
      if k < n - 1 || accounts[n - 1].name == name then k else n
  }

  function Fresh(name: string): Account {
    Account(name, 0.0, false, None)
  }

  /** What open does to the table. */
  function Opened(sh: Shared, name: string): Shared
    requires |sh.accounts| == MAX_ACCOUNT && sh.count <= MAX_ACCOUNT
  {
    if sh.count == MAX_ACCOUNT || FirstNamed(sh.accounts, sh.count, name) < sh.count then sh
    else sh.(accounts := sh.accounts[sh.count := Fresh(name)], count := sh.count + 1)
  }

  /** The balance of account a changed by an amount. */
  function Paid(sh: Shared, a: nat, delta: real): Shared
    requires a < |sh.accounts|
  {
    sh.(accounts := sh.accounts[a := sh.accounts[a].(balance := sh.accounts[a].balance + delta)])
  }

  class Table {
    var accounts: seq<Account>
    var count: nat

    ghost predicate Valid()
      reads this
    {
      |accounts| == MAX_ACCOUNT && count <= MAX_ACCOUNT
    }

    ghost function Memory(): Shared
      reads this
    {
      Shared(accounts, count, None, [])
    }

    // search_account: -1 for an empty table, otherwise the index the loop stops at.
    method SearchAccount(n: nat, name: string) returns (index: int)
      requires Valid() && n <= count
      ensures index == if n == 0 then -1 else FirstNamed(accounts, n, name)
    {
      if n == 0 {
        return -1;
      }
      index := 0;
      while index < n
        invariant 0 <= index <= n && forall j | 0 <= j < index :: accounts[j].name != name
      {
        if accounts[index].name == name {
          break;
        }
        index := index + 1;
      }
      OnlyFirst(accounts, n, name, index);
    }

    // client_open, with account_open in it. The result tells success.
    method ClientOpen(name: string) returns (ok: bool)
      requires Valid()
      modifies this
      ensures Valid() && Memory() == Opened(old(Memory()), name)
      ensures ok <==> count == old(count) + 1
    {
      if count == MAX_ACCOUNT {
        return false;
      }
      var index := SearchAccount(count, name);
      if index == -1 {
        accounts := accounts[0 := Fresh(name)];
      } else if index <= count - 1 {
        return false;
      } else {
        accounts := accounts[index := Fresh(name)];
      }
      count := count + 1;
      ok := true;
    }

    // account_debit
    method AccountDebit(i: nat, amount: real) returns (r: int)
      requires Valid() && i < count
      modifies this`accounts
      ensures Valid() && Memory() == if r == 1 then Paid(old(Memory()), i, -amount) else old(Memory())
      ensures r == if old(accounts)[i].balance < amount then 0 else 1
    {
      if accounts[i].balance - amount < 0.0 {
        r := 0;
      } else {
        accounts := accounts[i := accounts[i].(balance := accounts[i].balance - amount)];
        r := 1;
      }
    }

    // account_credit
    method AccountCredit(i: nat, amount: real)
      requires Valid() && i < count
      modifies this`accounts
      ensures Valid() && Memory() == Paid(old(Memory()), i, amount)
    {
      accounts := accounts[i := accounts[i].(balance := accounts[i].balance + amount)];
    }
  }

  /** What has been credited can be debited again, and that undoes it. */
  lemma PaidBack(sh: Shared, a: nat, amount: real)
    requires a < |sh.accounts| && sh.accounts[a].balance >= 0.0
    ensures Paid(sh, a, amount).accounts[a].balance >= amount
    ensures Paid(Paid(sh, a, amount), a, -amount) == sh
  {
    assert sh.accounts[a := sh.accounts[a]] == sh.accounts;
  }

  lemma OnlyFirst(accounts: seq<Account>, n: nat, name: string, k: nat)
    requires k <= n <= |accounts| && forall j | 0 <= j < k :: accounts[j].name != name
    requires k < n ==> accounts[k].name == name
    ensures FirstNamed(accounts, n, name) == k
  {
  }

  // ----- A client left alone -----

  /** n steps of client c in a row. */
  function Alone(sh: Shared, c: Cid, cl: Client, n: nat): (Shared, Client)
    requires |sh.accounts| == MAX_ACCOUNT
    decreases n
  {
    if n == 0 then (sh, cl)
    else var (t, x) := ClientStep(sh, c, cl, Balance); Alone(t, c, x, n - 1)
  }

  /** Uninterrupted, client c comes to this. */
  ghost predicate Leads(sh: Shared, c: Cid, cl: Client, end: (Shared, Client))
    requires |sh.accounts| == MAX_ACCOUNT
  {
    exists n: nat :: Alone(sh, c, cl, n) == end
  }

  lemma Here(sh: Shared, c: Cid, cl: Client)
    requires |sh.accounts| == MAX_ACCOUNT
    ensures Leads(sh, c, cl, (sh, cl))
  {
    assert Alone(sh, c, cl, 0) == (sh, cl);
  }

  lemma Onward(sh: Shared, c: Cid, cl: Client, t: Shared, x: Client, end: (Shared, Client))
    requires |sh.accounts| == MAX_ACCOUNT && ClientStep(sh, c, cl, Balance) == (t, x)
    requires |t.accounts| == MAX_ACCOUNT && Leads(t, c, x, end)
    ensures Leads(sh, c, cl, end)
  {
    var n: nat :| Alone(t, c, x, n) == end;
    assert Alone(sh, c, cl, n + 1) == end;
  }

  // ----- open -----

  lemma UnlockAlone(sh: Shared, c: Cid)
    requires TableOk(sh)
    ensures Leads(sh, c, Client(OpenUnlock, None), (sh.(registry := None), Client(Idle, None)))
  {
    var t := sh.(registry := None);
    Here(t, c, Client(Idle, None));
    Onward(sh, c, Client(OpenUnlock, None), t, Client(Idle, None), (t, Client(Idle, None)));
  }

  lemma CountAlone(sh: Shared, c: Cid, name: string)
    requires TableOk(sh) && TableOk(sh.(count := sh.count + 1))
    ensures Leads(sh, c, Client(OpenCount(name), None),
                  (sh.(count := sh.count + 1, registry := None), Client(Idle, None)))
  {
    var t := sh.(count := sh.count + 1);
    var end := (t.(registry := None), Client(Idle, None));
    UnlockAlone(t, c);
    Onward(sh, c, Client(OpenStore(name, sh.count), None), t, Client(OpenUnlock, None), end);
    Onward(sh, c, Client(OpenCount(name), None), sh, Client(OpenStore(name, sh.count), None), end);
  }

  lemma WriteAlone(sh: Shared, c: Cid, name: string, end: (Shared, Client))
    requires TableOk(sh) && sh.count < MAX_ACCOUNT
    requires Leads(sh.(accounts := sh.accounts[sh.count := Fresh(name)]), c, Client(OpenCount(name), None), end)
    ensures Leads(sh, c, Client(OpenInit(name, sh.count), None), end)
  {
    var n := sh.count;
    var t1 := Put(sh, n, At(sh, n).(owner := None));
    var t2 := Put(t1, n, At(t1, n).(name := name));
    var t3 := Put(t2, n, At(t2, n).(balance := 0.0));
    var t4 := Put(t3, n, At(t3, n).(inSession := false));
    assert t4.accounts == sh.accounts[n := Fresh(name)];
    Onward(t3, c, Client(OpenFlag(name, n), None), t4, Client(OpenCount(name), None), end);
    Onward(t2, c, Client(OpenBalance(name, n), None), t3, Client(OpenFlag(name, n), None), end);
    Onward(t1, c, Client(OpenName(name, n), None), t2, Client(OpenBalance(name, n), None), end);
    Onward(sh, c, Client(OpenInit(name, n), None), t1, Client(OpenName(name, n), None), end);
  }

  /** At the end of the search. */
  lemma FoundAlone(sh: Shared, c: Cid, name: string)
    requires TableOk(sh) && sh.count < MAX_ACCOUNT
    ensures Leads(sh, c, Client(OpenSearch(name, sh.count, FirstNamed(sh.accounts, sh.count, name)), None),
                  (Opened(sh, name).(registry := None), Client(Idle, None)))
  {
    var f, n := FirstNamed(sh.accounts, sh.count, name), sh.count;
    var end := (Opened(sh, name).(registry := None), Client(Idle, None));
    if f < n {
      UnlockAlone(sh, c);
      Onward(sh, c, Client(OpenSearch(name, n, f), None), sh, Client(OpenUnlock, None), end);
    } else {
      CountAlone(sh.(accounts := sh.accounts[n := Fresh(name)]), c, name);
      WriteAlone(sh, c, name, end);
      Onward(sh, c, Client(OpenSearch(name, n, n), None), sh, Client(OpenInit(name, n), None), end);
    }
  }

  /** From entry k of the search on. */
  lemma {:induction false} SearchAlone(sh: Shared, c: Cid, name: string, k: nat)
    requires TableOk(sh) && sh.count < MAX_ACCOUNT && k <= FirstNamed(sh.accounts, sh.count, name)
    ensures Leads(sh, c, Client(OpenSearch(name, sh.count, k), None),
                  (Opened(sh, name).(registry := None), Client(Idle, None)))
    decreases FirstNamed(sh.accounts, sh.count, name) - k
  {
    var n := sh.count;
    if k < FirstNamed(sh.accounts, n, name) {
      SearchAlone(sh, c, name, k + 1);
      Onward(sh, c, Client(OpenSearch(name, n, k), None), sh, Client(OpenSearch(name, n, k + 1), None),
             (Opened(sh, name).(registry := None), Client(Idle, None)));
    } else {
      FoundAlone(sh, c, name);
    }
  }

  /** The steps of open, uninterrupted, are the procedure. */
  lemma OpenAlone(sh: Shared, c: Cid, name: string)
    requires TableOk(sh) && sh.registry == None
    ensures Leads(sh, c, Client(OpenWait(name), None), (Opened(sh, name), Client(Idle, None)))
  {
    var held, end := sh.(registry := Some(c)), (Opened(sh, name), Client(Idle, None));
    if sh.count == MAX_ACCOUNT {
      UnlockAlone(held, c);
      Onward(held, c, Client(OpenCheck(name), None), held, Client(OpenUnlock, None), end);
    } else {
      SearchAlone(held, c, name, 0);
      Onward(held, c, Client(OpenCheck(name), None), held, Client(OpenSearch(name, sh.count, 0), None), end);
    }
    Onward(sh, c, Client(OpenWait(name), None), held, Client(OpenCheck(name), None), end);
  }

  // ----- start and finish -----

  function InSession(sh: Shared, k: nat, c: Cid): Shared
    requires k < |sh.accounts|
  {
    sh.(accounts := sh.accounts[k := sh.accounts[k].(owner := Some(c), inSession := true)])
  }

  /** Where start leads: to a session, to the report that there is no such account, or to the wait
      for whoever is in session. */
  function Started(sh: Shared, c: Cid, name: string): (Shared, Client)
    requires |sh.accounts| == MAX_ACCOUNT && sh.count <= MAX_ACCOUNT
  {
    var k := FirstNamed(sh.accounts, sh.count, name);
    if k == sh.count then (sh, Client(Idle, None))
    else if sh.accounts[k].owner.Some? then (sh, Client(StartTry(name, k), None))
    else (InSession(sh, k, c), Client(Idle, Some(k)))
  }

  lemma LockAlone(sh: Shared, c: Cid, name: string, k: nat)
    requires TableOk(sh) && k < sh.count && sh.accounts[k].owner == None
    ensures Leads(sh, c, Client(StartTry(name, k), None), (InSession(sh, k, c), Client(Idle, Some(k))))
  {
    var t, u := Put(sh, k, At(sh, k).(owner := Some(c))), InSession(sh, k, c);
    var end := (u, Client(Idle, Some(k)));
    assert Put(t, k, At(t, k).(inSession := true)).accounts == u.accounts;
    Here(u, c, Client(Idle, Some(k)));
    Onward(t, c, Client(StartFlag(name, k), None), u, Client(Idle, Some(k)), end);
    Onward(sh, c, Client(StartTry(name, k), None), t, Client(StartFlag(name, k), None), end);
  }

  /** At the end of the search. */
  lemma TryAlone(sh: Shared, c: Cid, name: string)
    requires TableOk(sh)
    ensures Leads(sh, c, Client(StartSearch(name, sh.count, FirstNamed(sh.accounts, sh.count, name)), None),
                  Started(sh, c, name))
  {
    var f, n := FirstNamed(sh.accounts, sh.count, name), sh.count;
    var x := Client(if f < n then StartTry(name, f) else Idle, None);
    if f < n && sh.accounts[f].owner == None { LockAlone(sh, c, name, f); } else { Here(sh, c, x); }
    Onward(sh, c, Client(StartSearch(name, n, f), None), sh, x, Started(sh, c, name));
  }

  lemma {:induction false} LookupAlone(sh: Shared, c: Cid, name: string, k: nat)
    requires TableOk(sh) && k <= FirstNamed(sh.accounts, sh.count, name)
    ensures Leads(sh, c, Client(StartSearch(name, sh.count, k), None), Started(sh, c, name))
    decreases FirstNamed(sh.accounts, sh.count, name) - k
  {
    var n := sh.count;
    if k < FirstNamed(sh.accounts, n, name) {
      LookupAlone(sh, c, name, k + 1);
      Onward(sh, c, Client(StartSearch(name, n, k), None), sh, Client(StartSearch(name, n, k + 1), None),
             Started(sh, c, name));
    } else {
      TryAlone(sh, c, name);
    }
  }

  lemma StartAlone(sh: Shared, c: Cid, name: string)
    requires TableOk(sh) && sh.registry == None
    ensures Leads(sh, c, Client(StartWait(name), None), Started(sh, c, name))
  {
    var held, end, n := sh.(registry := Some(c)), Started(sh, c, name), sh.count;
    assert held.(registry := None) == sh;
    LookupAlone(sh, c, name, 0);
    Onward(held, c, Client(StartUnlock(name, n), None), sh, Client(StartSearch(name, n, 0), None), end);
    Onward(held, c, Client(StartSnapshot(name), None), held, Client(StartUnlock(name, n), None), end);
    Onward(sh, c, Client(StartWait(name), None), held, Client(StartSnapshot(name), None), end);
  }

  /** Finishing undoes starting. */
  lemma FinishAlone(sh: Shared, c: Cid, a: nat, exit: bool)
    requires TableOk(sh) && a < sh.count && sh.accounts[a].owner == None && !sh.accounts[a].inSession
    ensures Leads(InSession(sh, a, c), c, Client(FinishFlag(exit), Some(a)),
                  (sh, Client(if exit then Exited else Idle, None)))
  {
    var s, x := InSession(sh, a, c), Client(if exit then Exited else Idle, None);
    var t := Put(s, a, At(s, a).(inSession := false));
    assert Put(t, a, At(t, a).(owner := None)).accounts == sh.accounts;
    Here(sh, c, x);
    Onward(t, c, Client(FinishUnlock(exit), Some(a)), sh, x, (sh, x));
    Onward(s, c, Client(FinishFlag(exit), Some(a)), t, Client(FinishUnlock(exit), Some(a)), (sh, x));
  }

  // ----- debit and credit -----

  /** An update of account a, acknowledged. */
  function Acked(sh: Shared, a: nat, delta: real): Shared
    requires a < |sh.accounts|
  {
    Paid(sh, a, delta).(acks := sh.acks + [Ack(a, delta)])
  }

  lemma RespondAlone(sh: Shared, c: Cid, a: nat, delta: real)
    requires TableOk(sh) && a < sh.count
    ensures Leads(Paid(sh, a, delta), c, Client(Respond(delta), Some(a)),
                  (Acked(sh, a, delta), Client(Idle, Some(a))))
  {
    var t, x := Acked(sh, a, delta), Client(Idle, Some(a));
    Here(t, c, x);
    Onward(Paid(sh, a, delta), c, Client(Respond(delta), Some(a)), t, x, (t, x));
  }

  /** The steps of debit, uninterrupted: the balance test, the two accesses behind it, the answer. */
  lemma DebitAlone(sh: Shared, c: Cid, a: nat, amount: real)
    requires TableOk(sh) && a < sh.count
    ensures Leads(sh, c, Client(DebitTest(amount), Some(a)),
                  (if sh.accounts[a].balance < amount then sh else Acked(sh, a, -amount), Client(Idle, Some(a))))
  {
    var b, x := sh.accounts[a].balance, Client(Idle, Some(a));
    if b < amount {
      Here(sh, c, x);
      Onward(sh, c, Client(DebitTest(amount), Some(a)), sh, x, (sh, x));
    } else {
      var end := (Acked(sh, a, -amount), x);
      DebitWriteAlone(sh, c, a, amount);
      Onward(sh, c, Client(DebitRead(amount), Some(a)), sh, Client(DebitWrite(amount, b), Some(a)), end);
      Onward(sh, c, Client(DebitTest(amount), Some(a)), sh, Client(DebitRead(amount), Some(a)), end);
    }
  }

  lemma DebitWriteAlone(sh: Shared, c: Cid, a: nat, amount: real)
    requires TableOk(sh) && a < sh.count
    ensures Leads(sh, c, Client(DebitWrite(amount, sh.accounts[a].balance), Some(a)),
                  (Acked(sh, a, -amount), Client(Idle, Some(a))))
  {
    RespondAlone(sh, c, a, -amount);
    Onward(sh, c, Client(DebitWrite(amount, sh.accounts[a].balance), Some(a)),
           Paid(sh, a, -amount), Client(Respond(-amount), Some(a)), (Acked(sh, a, -amount), Client(Idle, Some(a))));
  }

  /** Those of credit. */
  lemma CreditAlone(sh: Shared, c: Cid, a: nat, amount: real)
    requires TableOk(sh) && a < sh.count
    ensures Leads(sh, c, Client(CreditRead(amount), Some(a)), (Acked(sh, a, amount), Client(Idle, Some(a))))
  {
    var b, end := sh.accounts[a].balance, (Acked(sh, a, amount), Client(Idle, Some(a)));
    RespondAlone(sh, c, a, amount);
    Onward(sh, c, Client(CreditWrite(amount, b), Some(a)), Paid(sh, a, amount), Client(Respond(amount), Some(a)), end);
    Onward(sh, c, Client(CreditRead(amount), Some(a)), sh, Client(CreditWrite(amount, b), Some(a)), end);
  }
}
