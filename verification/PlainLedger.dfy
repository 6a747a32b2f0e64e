/** The ledger of the first version in the plain: one list, no servers, no cipher. */
module PlainLedger {
  import opened Wrappers
  import opened Text

  const INITIAL_BALANCE := 1000

  datatype Txn = Txn(serial: int, sender: string, receiver: string, amount: int)

  predicate Mentions(t: Txn, u: string) { t.sender == u || t.receiver == u }

  // Everyone who appears in some transaction starts with the initial balance.
  predicate Known(l: seq<Txn>, u: string)
  {
    l != [] && (Mentions(l[|l| - 1], u) || Known(l[..|l| - 1], u))
  }

  function Weight(t: Txn, u: string): int
  {
    (if t.receiver == u then t.amount else 0) - (if t.sender == u then t.amount else 0)
  }

  function Flow(l: seq<Txn>, u: string): int
  {
    if l == [] then 0 else Flow(l[..|l| - 1], u) + Weight(l[|l| - 1], u)
  }

  function Balance(l: seq<Txn>, u: string): int { INITIAL_BALANCE + Flow(l, u) }

  datatype Request = CheckWallet(user: string) | TxCoins(sender: string, receiver: string, amount: int) | TxList

  // What the requester is told, and the statement file written, if any.
  datatype Response = Response(reply: string, file: Option<string>)

  predicate Feasible(l: seq<Txn>, s: string, r: string, amount: int)
  {
    Known(l, s) && Known(l, r) && Balance(l, s) >= amount
  }

  datatype Outcome =
    | MissingBoth
    | MissingSender
    | MissingReceiver
    | Insufficient(balance: int)
    | Success(balance: int)

  function TransferOutcome(l: seq<Txn>, s: string, r: string, amount: int): Outcome
  {
    if !Known(l, s) && !Known(l, r) then MissingBoth
    else if !Known(l, s) then MissingSender
    else if !Known(l, r) then MissingReceiver
    else if Balance(l, s) < amount then Insufficient(Balance(l, s))
    else Success(Balance(l, s) - amount)
  }

  function Told(o: Outcome): string
  {
    match o
    case MissingBoth => "MISSINGBOTH"
    case MissingSender => "MISSINGSENDER"
    case MissingReceiver => "MISSINGRECEIVER"
    case Insufficient(balance) => "INSUFFICIENT " + Render(balance)
    case Success(balance) => "SUCCESS " + Render(balance)
  }

  function WalletReply(l: seq<Txn>, u: string): string
  {
    if Known(l, u) then "FOUND " + Render(Balance(l, u)) else "NOTFOUND"
  }

  function StatementText(t: Txn): string
  {
    Render(t.serial) + " " + t.sender + " " + t.receiver + " " + Render(t.amount)
  }

  function StatementLine(t: Txn): string { StatementText(t) + "\n" }

  function Statement(l: seq<Txn>): string
  {
    if l == [] then "" else Statement(l[..|l| - 1]) + StatementLine(l[|l| - 1])
  }

  function Answer(l: seq<Txn>, req: Request): Response
  {
    match req
    case CheckWallet(u) => Response(WalletReply(l, u), None)
    case TxCoins(s, r, amount) => Response(Told(TransferOutcome(l, s, r, amount)), None)
    case TxList => Response("OK", Some(Statement(l)))
  }

  function After(l: seq<Txn>, req: Request): seq<Txn>
  {
    if req.TxCoins? && Feasible(l, req.sender, req.receiver, req.amount)
    then l + [Txn(|l| + 1, req.sender, req.receiver, req.amount)]
    else l
  }

  function Ledger(l: seq<Txn>, reqs: seq<Request>): seq<Txn>
  {
    if reqs == [] then l else After(Ledger(l, reqs[..|reqs| - 1]), reqs[|reqs| - 1])
  }

  function Answers(l: seq<Txn>, reqs: seq<Request>): seq<Response>
  {
    if reqs == [] then []
    else Answers(l, reqs[..|reqs| - 1]) + [Answer(Ledger(l, reqs[..|reqs| - 1]), reqs[|reqs| - 1])]
  }

  // ---- The serials ----

  ghost predicate InOrder(l: seq<Txn>) { forall i :: 0 <= i < |l| ==> l[i].serial == i + 1 }

  // Serials stay exactly 1 to n.
  lemma {:induction false} SerialsStay(l: seq<Txn>, reqs: seq<Request>)
    requires InOrder(l)
    ensures InOrder(Ledger(l, reqs)) && l <= Ledger(l, reqs)
  {
    if reqs != [] {
      SerialsStay(l, reqs[..|reqs| - 1]);
    }
  }

  // ---- What the replies mean ----

  lemma FlowSnoc(l: seq<Txn>, t: Txn, u: string)
    ensures Flow(l + [t], u) == Flow(l, u) + Weight(t, u)
    ensures Known(l + [t], u) <==> Known(l, u) || Mentions(t, u)
  {
    assert (l + [t])[..|l|] == l;
  }

  lemma RenderInjective(x: int, y: int)
    ensures Render(x) == Render(y) <==> x == y
  {
    StrtolRender(x);
    StrtolRender(y);
  }

  lemma SameBehind(prefix: string, x: string, y: string)
    ensures prefix + x == prefix + y <==> x == y
  {
    assert (prefix + x)[|prefix|..] == x && (prefix + y)[|prefix|..] == y;
  }

  // Each answer to a transfer, in words: who is in no transaction, or a balance that is too small, or success.
  lemma ToldExactly(l: seq<Txn>, s: string, r: string, amount: int)
    ensures var reply := Answer(l, TxCoins(s, r, amount)).reply;
      var known := (u: string) => exists t :: t in l && Mentions(t, u);
      && (reply == "MISSINGBOTH" <==> !known(s) && !known(r))
      && (reply == "MISSINGSENDER" <==> !known(s) && known(r))
      && (reply == "MISSINGRECEIVER" <==> known(s) && !known(r))
      && (reply[0] == 'I' <==> known(s) && known(r) && Balance(l, s) < amount)
      && (reply[0] == 'S' <==> known(s) && known(r) && Balance(l, s) >= amount)
  {
    KnownIsIn(l, s);
    KnownIsIn(l, r);
    var o := TransferOutcome(l, s, r, amount);
    assert "MISSINGBOTH"[7] == 'B' && "MISSINGSENDER"[7] == 'S' && "MISSINGRECEIVER"[7] == 'R';
    assert o.Insufficient? ==> Told(o)[0] == 'I';
    assert o.Success? ==> Told(o)[0] == 'S';
  }

  // The balance a transfer reports is the one the sender then has, exactly when the transfer succeeds and
  // does not pay the sender himself; a transfer to himself leaves his balance, but the report deducts it.
  lemma ReportedBalanceExactly(l: seq<Txn>, s: string, r: string, amount: int)
    ensures var after := After(l, TxCoins(s, r, amount));
      Answer(l, TxCoins(s, r, amount)).reply == "SUCCESS " + Render(Balance(after, s)) <==>
      Feasible(l, s, r, amount) && (s != r || amount == 0)
  {
    ToldExactly(l, s, r, amount);
    FlowSnoc(l, Txn(|l| + 1, s, r, amount), s);
    SuccessTells(l, s, r, amount, Balance(After(l, TxCoins(s, r, amount)), s));
  }

  lemma SuccessTells(l: seq<Txn>, s: string, r: string, amount: int, x: int)
    ensures Answer(l, TxCoins(s, r, amount)).reply == "SUCCESS " + Render(x) <==>
            Feasible(l, s, r, amount) && x == Balance(l, s) - amount
  {
    var o := TransferOutcome(l, s, r, amount);
    assert ("SUCCESS " + Render(x))[0] == 'S';
    if o.Success? {
      SameBehind("SUCCESS ", Render(o.balance), Render(x));
      RenderInjective(o.balance, x);
    } else if o.Insufficient? {
      assert Told(o)[0] == 'I';
    }
  }

  // A refusal for funds reports the balance as it stays.
  lemma RefusalReportsExactly(l: seq<Txn>, s: string, r: string, amount: int)
    ensures !Feasible(l, s, r, amount) ==> After(l, TxCoins(s, r, amount)) == l
    ensures Answer(l, TxCoins(s, r, amount)).reply ==
            "INSUFFICIENT " + Render(Balance(After(l, TxCoins(s, r, amount)), s)) <==>
            Known(l, s) && Known(l, r) && Balance(l, s) < amount
  {
    var o := TransferOutcome(l, s, r, amount);
    assert ("INSUFFICIENT " + Render(Balance(After(l, TxCoins(s, r, amount)), s)))[0] == 'I';
    if o.Success? {
      assert Told(o)[0] == 'S';
    }
  }

  lemma TwoWords(a: string, n: int)
    requires Word(a)
    ensures Tokens(a + " " + Render(n)) == [a, Render(n)]
  {
    RenderIsWord(n);
    TokensWord(Render(n), "");
    assert Render(n) + "" == Render(n);
    TokensSpace(Render(n));
    TokensWord(a, " " + Render(n));
    Assoc(a, " ", Render(n));
  }

  // A requester reads a reply by its words, the second as a number.
  lemma RepliesRead(l: seq<Txn>, s: string, r: string, amount: int)
    ensures var ws := Tokens(Answer(l, TxCoins(s, r, amount)).reply);
      && (Feasible(l, s, r, amount) ==> |ws| == 2 && ws[0] == "SUCCESS" && Strtol(ws[1]) == Balance(l, s) - amount)
      && (Known(l, s) && Known(l, r) && Balance(l, s) < amount ==>
            |ws| == 2 && ws[0] == "INSUFFICIENT" && Strtol(ws[1]) == Balance(l, s))
  {
    var o := TransferOutcome(l, s, r, amount);
    if o.Success? {
      assert "SUCCESS" + " " == "SUCCESS ";
      TwoWords("SUCCESS", o.balance);
      StrtolRender(o.balance);
    } else if o.Insufficient? {
      assert "INSUFFICIENT" + " " == "INSUFFICIENT ";
      TwoWords("INSUFFICIENT", o.balance);
      StrtolRender(o.balance);
    }
  }

  // The wallet reply: not found exactly for a name in no transaction, else the balance.
  lemma WalletReplyReads(l: seq<Txn>, u: string)
    ensures var reply := Answer(l, CheckWallet(u)).reply;
      && (reply == "NOTFOUND" <==> forall t :: t in l ==> t.sender != u && t.receiver != u)
      && (reply != "NOTFOUND" ==>
            |Tokens(reply)| == 2 && Tokens(reply)[0] == "FOUND" && Strtol(Tokens(reply)[1]) == Balance(l, u))
  {
    KnownIsIn(l, u);
    if Known(l, u) {
      assert "FOUND" + " " == "FOUND ";
      TwoWords("FOUND", Balance(l, u));
      StrtolRender(Balance(l, u));
      assert WalletReply(l, u)[0] == 'F';
    }
  }

  // What a balance is: everyone starts with 1000 coins, and one payment moves its amount from the payer to
  // the payee.
  lemma FirstPayment(a: string, b: string, x: int, u: string)
    requires a != b
    ensures Balance([], u) == 1000
    ensures Balance([Txn(1, a, b, x)], u) == if u == a then 1000 - x else if u == b then 1000 + x else 1000
  {
    FlowSnoc([], Txn(1, a, b, x), u);
    NothingBefore([Txn(1, a, b, x)]);
  }

  lemma PaymentMoves(l: seq<Txn>, a: string, b: string, x: int, u: string)
    requires a != b
    ensures Balance(l + [Txn(|l| + 1, a, b, x)], u) ==
            if u == a then Balance(l, u) - x else if u == b then Balance(l, u) + x else Balance(l, u)
  {
    FlowSnoc(l, Txn(|l| + 1, a, b, x), u);
  }

  // ---- The statement ----

  function StatementWords(t: Txn): seq<string> { [Render(t.serial), t.sender, t.receiver, Render(t.amount)] }

  lemma StatementTextReads(t: Txn)
    requires Word(t.sender) && Word(t.receiver)
    ensures OneLine(StatementText(t)) && Tokens(StatementText(t)) == StatementWords(t)
  {
    RenderIsWord(t.serial);
    RenderIsWord(t.amount);
    FourWords(Render(t.serial), t.sender, t.receiver, Render(t.amount));
    WordsAreOneLine(Render(t.serial), t.sender, t.receiver, Render(t.amount));
  }

  lemma FourWords(a: string, b: string, c: string, d: string)
    requires Word(a) && Word(b) && Word(c) && Word(d)
    ensures Tokens(a + " " + b + " " + c + " " + d) == [a, b, c, d]
  {
    TokensSpaced([b, c, d]);
    TokensWord(a, Spaced([b, c, d]));
    SpacedTwo(c, d);
    SpacedCons(b, [c, d]);
    assert [b] + [c, d] == [b, c, d];
    Nested(a, b, c, d);
  }

  lemma Nested(a: string, b: string, c: string, d: string)
    ensures a + (" " + b + (" " + c + " " + d)) == a + " " + b + " " + c + " " + d
  {
  }

  lemma StatementSnoc(l: seq<Txn>, t: Txn)
    ensures Statement(l + [t]) == Statement(l) + StatementLine(t)
  {
    assert (l + [t])[..|l|] == l;
  }

  lemma {:induction false} StatementCons(t: Txn, l: seq<Txn>)
    ensures Statement([t] + l) == StatementLine(t) + Statement(l)
  {
    if l == [] {
      StatementSnoc([], t);
      NothingBefore([t]);
      NothingBefore(StatementLine(t));
      assert [t] + l == [t] && StatementLine(t) + "" == StatementLine(t);
    } else {
      var init, last := l[..|l| - 1], l[|l| - 1];
      StatementCons(t, init);
      InitLast(l);
      Assoc([t], init, [last]);
      StatementSnoc([t] + init, last);
      StatementSnoc(init, last);
      Assoc(StatementLine(t), Statement(init), StatementLine(last));
    }
  }

  lemma StatementFront(l: seq<Txn>)
    requires l != [] && Word(l[0].sender) && Word(l[0].receiver)
    ensures Lines(Statement(l)) == [StatementText(l[0])] + Lines(Statement(l[1..]))
  {
    StatementTextReads(l[0]);
    HeadTail(l);
    StatementCons(l[0], l[1..]);
    LinesCons(StatementText(l[0]), Statement(l[1..]));
  }

  // The statement has one line a transaction, in order; the words of a line are its serial, sender, receiver
  // and amount.
  lemma {:induction false} StatementReads(l: seq<Txn>)
    requires forall k :: 0 <= k < |l| ==> Word(l[k].sender) && Word(l[k].receiver)
    ensures |Lines(Statement(l))| == |l|
    ensures forall i :: 0 <= i < |l| ==> Tokens(Lines(Statement(l))[i]) == StatementWords(l[i])
    decreases |l|
  {
    if l == [] {
      assert Lines("") == [];
    } else {
      StatementFront(l);
      StatementTextReads(l[0]);
      StatementReads(l[1..]);
    }
  }

  // ---- Wealth ----

  function Wealth(l: seq<Txn>, names: seq<string>): int
  {
    if names == [] then 0 else Wealth(l, names[..|names| - 1]) + Balance(l, names[|names| - 1])
  }

  function Count(names: seq<string>, u: string): nat
  {
    if names == [] then 0 else Count(names[..|names| - 1], u) + if names[|names| - 1] == u then 1 else 0
  }

  // A transfer moves its amount and nothing else: the wealth of any list of names changes by the amount,
  // as often as the receiver is listed more than the sender.
  lemma {:induction false} WealthAfter(l: seq<Txn>, s: string, r: string, amount: int, names: seq<string>)
    requires Feasible(l, s, r, amount)
    ensures Wealth(After(l, TxCoins(s, r, amount)), names) ==
            Wealth(l, names) + amount * (Count(names, r) - Count(names, s))
  {
    if names != [] {
      var init, u := names[..|names| - 1], names[|names| - 1];
      WealthAfter(l, s, r, amount, init);
      FlowSnoc(l, Txn(|l| + 1, s, r, amount), u);
      AddOne(amount, Count(init, r) - Count(init, s), if r == u then 1 else 0, if s == u then 1 else 0);
    }
  }

  lemma AddOne(amount: int, k: int, p: int, q: int)
    requires 0 <= p <= 1 && 0 <= q <= 1
    ensures amount * (k + p - q) == amount * k + (if p == 1 then amount else 0) - (if q == 1 then amount else 0)
  {
    assert amount * (k + p - q) == amount * k + amount * p - amount * q;
  }

  // ---- Solvency ----

  ghost predicate Solvent(l: seq<Txn>) { forall u: string :: Balance(l, u) >= 0 }

  // An amount is safe when no feasible transfer of it drives anyone below zero.
  ghost predicate Safe(amount: int)
  {
    forall l: seq<Txn>, s: string, r: string :: Solvent(l) && Feasible(l, s, r, amount) ==>
      Solvent(After(l, TxCoins(s, r, amount)))
  }

  lemma TransferKeepsSolvent(l: seq<Txn>, s: string, r: string, amount: int)
    requires Solvent(l) && Feasible(l, s, r, amount) && amount >= 0
    ensures Solvent(After(l, TxCoins(s, r, amount)))
  {
    forall u: string ensures Balance(After(l, TxCoins(s, r, amount)), u) >= 0 {
      FlowSnoc(l, Txn(|l| + 1, s, r, amount), u);
      assert Balance(l, u) >= 0;
    }
  }

  // A transfer of a negative amount draws on the receiver, whom the check does not look at: here he has
  // spent everything already.
  lemma NegativeOverdraws(amount: int) returns (l: seq<Txn>)
    requires amount < 0
    ensures InOrder(l) && Solvent(l) && Feasible(l, "a", "b", amount)
    ensures !Solvent(After(l, TxCoins("a", "b", amount)))
  {
    var t := Txn(1, "b", "a", INITIAL_BALANCE);
    l := [t];
    assert "a" != "b";
    forall u: string ensures Flow(l, u) == Weight(t, u) && Known(l, u) == Mentions(t, u) {
      FlowSnoc([], t, u);
      NothingBefore(l);
    }
    FlowSnoc(l, Txn(2, "a", "b", amount), "b");
    assert Balance(After(l, TxCoins("a", "b", amount)), "b") < 0;
  }

  // The check of the sender's balance protects everyone exactly when the amount is not negative.
  lemma SafeExactly(amount: int)
    ensures Safe(amount) <==> amount >= 0
  {
    if amount >= 0 {
      forall l: seq<Txn>, s: string, r: string | Solvent(l) && Feasible(l, s, r, amount)
        ensures Solvent(After(l, TxCoins(s, r, amount)))
      {
        TransferKeepsSolvent(l, s, r, amount);
      }
    } else {
      var l := NegativeOverdraws(amount);
    }
  }

  // ---- Order does not matter to balances ----

  lemma {:induction false} FlowConcat(xs: seq<Txn>, ys: seq<Txn>, u: string)
    ensures Flow(xs + ys, u) == Flow(xs, u) + Flow(ys, u)
  {
    if ys == [] {
      assert xs + ys == xs;
    } else {
      FlowConcat(xs, ys[..|ys| - 1], u);
      assert (xs + ys)[..|xs + ys| - 1] == xs + ys[..|ys| - 1];
    }
  }

  lemma {:induction false} KnownIsIn(l: seq<Txn>, u: string)
    ensures Known(l, u) <==> exists t :: t in l && Mentions(t, u)
  {
    if l != [] {
      KnownIsIn(l[..|l| - 1], u);
      InitLast(l);
      assert forall t :: t in l <==> t in l[..|l| - 1] || t == l[|l| - 1];
    }
  }

  lemma SameMembers(xs: seq<Txn>, ys: seq<Txn>)
    requires multiset(xs) == multiset(ys)
    ensures |xs| == |ys| && forall t :: t in xs <==> t in ys
  {
    assert |multiset(xs)| == |xs| && |multiset(ys)| == |ys|;
    assert forall t :: t in xs <==> t in multiset(xs);
    assert forall t :: t in ys <==> t in multiset(ys);
  }

  lemma TakeOut(ys: seq<Txn>, j: nat)
    requires j < |ys|
    ensures multiset(ys[..j] + ys[j + 1..]) == multiset(ys) - multiset{ys[j]}
  {
    assert ys == ys[..j] + [ys[j]] + ys[j + 1..];
  }

  lemma FlowTakeOut(ys: seq<Txn>, j: nat, u: string)
    requires j < |ys|
    ensures Flow(ys, u) == Flow(ys[..j] + ys[j + 1..], u) + Weight(ys[j], u)
  {
    FlowConcat(ys[..j], ys[j + 1..], u);
    FlowConcat(ys[..j] + [ys[j]], ys[j + 1..], u);
    FlowSnoc(ys[..j], ys[j], u);
    assert ys == ys[..j] + [ys[j]] + ys[j + 1..];
  }

  lemma {:induction false} FlowPerm(xs: seq<Txn>, ys: seq<Txn>, u: string)
    requires multiset(xs) == multiset(ys)
    ensures Flow(xs, u) == Flow(ys, u)
  {
    SameMembers(xs, ys);
    if xs != [] {
      var init, t := xs[..|xs| - 1], xs[|xs| - 1];
      assert t in xs && t in ys;
      var j :| 0 <= j < |ys| && ys[j] == t;
      TakeOut(ys, j);
      TakeOut(xs, |xs| - 1);
      assert xs[..|xs| - 1] + xs[|xs|..] == init;
      FlowPerm(init, ys[..j] + ys[j + 1..], u);
      FlowTakeOut(ys, j, u);
    }
  }

  lemma KnownPerm(xs: seq<Txn>, ys: seq<Txn>, u: string)
    requires multiset(xs) == multiset(ys)
    ensures Known(xs, u) == Known(ys, u)
  {
    SameMembers(xs, ys);
    KnownIsIn(xs, u);
    KnownIsIn(ys, u);
  }

  // ---- The highest serial, and sorting by serial ----

  function MaxOf(l: seq<Txn>): int
  {
    if l == [] then 0
    else
      var m := MaxOf(l[..|l| - 1]);
      if l[|l| - 1].serial > m then l[|l| - 1].serial else m
  }

  lemma {:induction false} MaxIs(l: seq<Txn>)
    ensures MaxOf(l) >= 0 && (forall t :: t in l ==> t.serial <= MaxOf(l))
    ensures MaxOf(l) > 0 ==> exists t :: t in l && t.serial == MaxOf(l)
  {
    if l != [] {
      var init, last := l[..|l| - 1], l[|l| - 1];
      MaxIs(init);
      assert forall t :: t in l <==> t in init || t == last by { InitLast(l); }
      if MaxOf(l) != MaxOf(init) {
        assert last in l && last.serial == MaxOf(l);
      } else if MaxOf(l) > 0 {
        var t :| t in init && t.serial == MaxOf(init);
        assert t in l;
      }
    }
  }

  // Wherever the transactions lie, the highest serial is their number.
  lemma MaxIsLength(xs: seq<Txn>, l: seq<Txn>)
    requires multiset(xs) == multiset(l) && InOrder(l)
    ensures MaxOf(xs) == |l|
  {
    SameMembers(xs, l);
    MaxIs(xs);
    if l != [] {
      assert l[|l| - 1] in xs;
    }
    if MaxOf(xs) > 0 {
      var t :| t in xs && t.serial == MaxOf(xs);
      assert t in l;
    }
  }

  ghost predicate Sorted(l: seq<Txn>) { forall i, j :: 0 <= i < j < |l| ==> l[i].serial <= l[j].serial }

  lemma LastIsLast(s: seq<Txn>, l: seq<Txn>)
    requires multiset(s) == multiset(l) && InOrder(l) && Sorted(s) && l != []
    ensures |s| == |l| && s[|s| - 1] == l[|l| - 1]
  {
    SameMembers(s, l);
    var n := |l| - 1;
    assert l[n] in s;
    var j :| 0 <= j < |s| && s[j] == l[n];
    assert s[j].serial <= s[n].serial;
    assert s[n] in l;
    var i :| 0 <= i < |l| && l[i] == s[n];
  }

  // Sorting by serial gives back the list itself.
  lemma {:induction false} SortedIsLedger(s: seq<Txn>, l: seq<Txn>)
    requires multiset(s) == multiset(l) && InOrder(l) && Sorted(s)
    ensures s == l
  {
    SameMembers(s, l);
    if l != [] {
      var n := |l| - 1;
      LastIsLast(s, l);
      TakeOut(s, n);
      TakeOut(l, n);
      assert s[..n] + s[n + 1..] == s[..n] && l[..n] + l[n + 1..] == l[..n];
      SortedIsLedger(s[..n], l[..n]);
      InitLast(s);
      InitLast(l);
    }
  }

  // The monitor is told "OK" and given that statement; no other request writes one.
  lemma StatementIsWritten(l: seq<Txn>, req: Request)
    ensures Answer(l, req).file == if req == TxList then Some(Statement(l)) else None
    ensures req == TxList ==> Answer(l, req).reply == "OK" && After(l, req) == l
  {
  }
}
