/** The first version: a main server that ciphers, and three backends that keep ciphertext rows. */
module Shards {
  import opened Wrappers
  import opened Text
  import opened Caesar
  import opened PlainLedger

  // ---- Rows ----

  datatype Row = Row(serial: int, sender: string, receiver: string, amount: string)

  function RowLine(serial: int, s: string, r: string, a: string): string
  {
    Render(serial) + Spaced([s, r, a])
  }

  // Extracting a long and three strings from a line.
  function ParseRow(line: string): Option<Row>
  {
    var t := SkipSpace(line);
    if !HasNumber(t) then None
    else
      var ws := Tokens(t[NumberLen(t)..]);
      if |ws| < 3 then None else Some(Row(NumberOf(t), ws[0], ws[1], ws[2]))
  }

  // How a transaction is kept.
  function Line(t: Txn): string { RowLine(t.serial, Enc(t.sender), Enc(t.receiver), Enc(Render(t.amount))) }

  function Deciphered(row: Row): Txn
  {
    Txn(row.serial, Dec(row.sender), Dec(row.receiver), Strtol(Dec(row.amount)))
  }

  predicate GoodTxn(t: Txn) { Word(t.sender) && Word(t.receiver) }

  lemma ParseRowLine(serial: int, s: string, r: string, a: string)
    requires Word(s) && Word(r) && Word(a)
    ensures ParseRow(RowLine(serial, s, r, a)) == Some(Row(serial, s, r, a))
  {
    var rest := Spaced([s, r, a]);
    assert rest[0] == ' ';
    NumberRender(serial, rest);
    RenderIsWord(serial);
    TokensSpaced([s, r, a]);
    assert !IsSpace(RowLine(serial, s, r, a)[0]);
  }

  lemma RowLineText(serial: int, s: string, r: string, a: string)
    ensures RowLine(serial, s, r, a) == Render(serial) + " " + s + " " + r + " " + a
  {
    SpacedTwo(r, a);
    SpacedCons(s, [r, a]);
    assert [s] + [r, a] == [s, r, a];
    FlattenLine(Render(serial), " " + s, " " + r, " " + a);
  }

  lemma FlattenLine(x: string, s: string, r: string, a: string)
    ensures x + (s + (r + a)) == x + s + r + a
  {
  }

  lemma RowLineIsOneLine(serial: int, s: string, r: string, a: string)
    requires Word(s) && Word(r) && Word(a)
    ensures OneLine(RowLine(serial, s, r, a))
  {
    RowLineText(serial, s, r, a);
    RenderIsWord(serial);
    WordsAreOneLine(Render(serial), s, r, a);
  }

  // What the backend keeps parses, and the main server reads the transaction back.
  lemma LineRoundTrip(t: Txn)
    requires GoodTxn(t)
    ensures OneLine(Line(t)) && ParseRow(Line(t)).Some? && Deciphered(ParseRow(Line(t)).value) == t
    ensures ParseRow(Line(t)).value == Row(t.serial, Enc(t.sender), Enc(t.receiver), Enc(Render(t.amount)))
  {
    EncDec(t.sender);
    EncDec(t.receiver);
    EncDec(Render(t.amount));
    RenderIsWord(t.amount);
    ParseRowLine(t.serial, Enc(t.sender), Enc(t.receiver), Enc(Render(t.amount)));
    RowLineIsOneLine(t.serial, Enc(t.sender), Enc(t.receiver), Enc(Render(t.amount)));
    StrtolRender(t.amount);
  }

  function LinesOf(ts: seq<Txn>): seq<string>
  {
    if ts == [] then [] else LinesOf(ts[..|ts| - 1]) + [Line(ts[|ts| - 1])]
  }

  ghost predicate Good(ts: seq<Txn>) { forall i :: 0 <= i < |ts| ==> GoodTxn(ts[i]) }

  // ---- What a backend answers ----

  function MaxSerial(lines: seq<string>): int
  {
    if lines == [] then 0
    else
      var m, row := MaxSerial(lines[..|lines| - 1]), ParseRow(lines[|lines| - 1]);
      if row.Some? && row.value.serial > m then row.value.serial else m
  }

  predicate Matches(line: string, name1: string, name2: string)
  {
    var row := ParseRow(line);
    && row.Some?
    && (|| row.value.sender == name1 || row.value.receiver == name1
        || (name2 != "*" && (row.value.sender == name2 || row.value.receiver == name2)))
  }

  function Matching(lines: seq<string>, name1: string, name2: string): seq<string>
  {
    if lines == [] then []
    else
      var rest, last := Matching(lines[..|lines| - 1], name1, name2), lines[|lines| - 1];
      if Matches(last, name1, name2) then rest + [last] else rest
  }

  function Parsable(lines: seq<string>): seq<string>
  {
    if lines == [] then []
    else
      var rest, last := Parsable(lines[..|lines| - 1]), lines[|lines| - 1];
      if ParseRow(last).Some? then rest + [last] else rest
  }

  function QueryReply(lines: seq<string>, name1: string, name2: string): string
  {
    Render(MaxSerial(lines)) + Hang(Matching(lines, name1, name2))
  }

  function AllReply(lines: seq<string>): string { Render(MaxSerial(lines)) + Hang(Parsable(lines)) }

  // The rest of the first line behind the operation, without the blank that sets it apart.
  function RestOfLine(msg: string): string
  {
    var t := SkipSpace(msg);
    var behind := t[WordLen(t)..];
    var rest := behind[..LineLen(behind)];
    if rest != "" && rest[0] == ' ' then rest[1..] else rest
  }

  // What a request that changes nothing is answered.
  function RepliedTo(lines: seq<string>, msg: string): string
  {
    var ws := Tokens(msg);
    if Nth(ws, 0) == "QUERY" then QueryReply(lines, Nth(ws, 1), Nth(ws, 2))
    else if Nth(ws, 0) == "ALL" then AllReply(lines)
    else "ERR"
  }

  // A word that is missing is read as the empty string.
  function Nth(ws: seq<string>, n: nat): string { if n < |ws| then ws[n] else "" }

  class Backend {
    var lines: seq<string>

    constructor (lines: seq<string>)
      ensures this.lines == lines
    {
      this.lines := lines;
    }

    method HandleQuery(name1: string, name2: string) returns (reply: string)
      ensures reply == QueryReply(lines, name1, name2)
    {
      var maxSerial, rows := 0, "";
      var use2 := name2 != "*";
      for i := 0 to |lines|
        invariant maxSerial == MaxSerial(lines[..i])
        invariant rows == Hang(Matching(lines[..i], name1, name2))
      {
        assert lines[..i + 1][..i] == lines[..i];
        var row := ParseRow(lines[i]);
        if row.None? {
          continue;
        }
        if row.value.serial > maxSerial {
          maxSerial := row.value.serial;
        }
        var s, r := row.value.sender, row.value.receiver;
        var selected := (s == name1 || r == name1) || (use2 && (s == name2 || r == name2));
        if selected {
          HangSnoc(Matching(lines[..i], name1, name2), lines[i]);
          rows := rows + "\n";
          rows := rows + lines[i];
        }
      }
      assert lines[..|lines|] == lines;
      reply := Render(maxSerial) + rows;
    }

    method HandleAll() returns (reply: string)
      ensures reply == AllReply(lines)
    {
      var maxSerial, rows := 0, "";
      for i := 0 to |lines|
        invariant maxSerial == MaxSerial(lines[..i])
        invariant rows == Hang(Parsable(lines[..i]))
      {
        assert lines[..i + 1][..i] == lines[..i];
        var row := ParseRow(lines[i]);
        if row.None? {
          continue;
        }
        if row.value.serial > maxSerial {
          maxSerial := row.value.serial;
        }
        HangSnoc(Parsable(lines[..i]), lines[i]);
        rows := rows + "\n";
        rows := rows + lines[i];
      }
      assert lines[..|lines|] == lines;
      reply := Render(maxSerial) + rows;
    }

    method HandleNew(rest: string) returns (reply: string)
      modifies this
      ensures ParseRow(rest).None? ==> reply == "ERR" && lines == old(lines)
      ensures ParseRow(rest).Some? ==>
        var row := ParseRow(rest).value;
        reply == "OK" && lines == old(lines) + [RowLine(row.serial, row.sender, row.receiver, row.amount)]
    {
      var row := ParseRow(rest);
      if row.None? {
        return "ERR";
      }
      var serial, s, r, amt := row.value.serial, row.value.sender, row.value.receiver, row.value.amount;
      RowLineText(serial, s, r, amt);
      lines := lines + [Render(serial) + " " + s + " " + r + " " + amt];
      return "OK";
    }

    // The dispatch on the first word. Its reading branches need no right to change the rows and stand apart.
    method Handle(msg: string) returns (reply: string)
      modifies this
      ensures Nth(Tokens(msg), 0) != "NEW" ==> lines == old(lines) && reply == RepliedTo(lines, msg)
      ensures Nth(Tokens(msg), 0) !in {"QUERY", "ALL", "NEW"} ==> reply == "ERR"
      ensures Nth(Tokens(msg), 0) == "NEW" ==>
        match ParseRow(RestOfLine(msg))
        case None => reply == "ERR" && lines == old(lines)
        case Some(row) =>
          reply == "OK" && lines == old(lines) + [RowLine(row.serial, row.sender, row.receiver, row.amount)]
    {
      if Nth(Tokens(msg), 0) == "NEW" {
        reply := HandleNew(RestOfLine(msg));
      } else {
        reply := HandleRead(msg);
      }
    }

    method HandleRead(msg: string) returns (reply: string)
      requires Nth(Tokens(msg), 0) != "NEW"
      ensures reply == RepliedTo(lines, msg)
    {
      var ws := Tokens(msg);
      if Nth(ws, 0) == "QUERY" {
        reply := HandleQuery(Nth(ws, 1), Nth(ws, 2));
      } else if Nth(ws, 0) == "ALL" {
        reply := HandleAll();
      } else {
        reply := "ERR";
      }
    }
  }

  // ---- What the main server reads ----

  function ReplyTxns(ls: seq<string>): seq<Txn>
  {
    if ls == [] then []
    else
      var rest, last := ReplyTxns(ls[..|ls| - 1]), ls[|ls| - 1];
      if last == "" || ParseRow(last).None? then rest else rest + [Deciphered(ParseRow(last).value)]
  }

  method ParseQueryReply(reply: string, sofar: seq<Txn>, max0: int) returns (out: seq<Txn>, maxSerial: int)
    ensures var ls := Lines(reply);
      if ls == [] then out == sofar && maxSerial == max0
      else out == sofar + ReplyTxns(ls[1..]) && maxSerial == if Strtol(ls[0]) > max0 then Strtol(ls[0]) else max0
  {
    out, maxSerial := sofar, max0;
    var ls := Lines(reply);
    if ls == [] {
      return;
    }
    var ms := Strtol(ls[0]);
    if ms > maxSerial {
      maxSerial := ms;
    }
    var rows := ls[1..];
    for i := 0 to |rows|
      invariant out == sofar + ReplyTxns(rows[..i])
    {
      assert rows[..i + 1][..i] == rows[..i];
      var line := rows[i];
      if line == "" {
        continue;
      }
      var row := ParseRow(line);
      if row.None? {
        continue;
      }
      var sender := DecStr(row.value.sender);
      var receiver := DecStr(row.value.receiver);
      var digits := DecStr(row.value.amount);
      out := out + [Txn(row.value.serial, sender, receiver, Strtol(digits))];
    }
    assert rows[..|rows|] == rows;
  }

  // ---- Backends that keep transactions of the ledger ----

  lemma GoodInit(ts: seq<Txn>)
    requires Good(ts) && ts != []
    ensures Good(ts[..|ts| - 1]) && GoodTxn(ts[|ts| - 1])
  {
  }

  lemma LinesOfInit(ts: seq<Txn>)
    requires ts != []
    ensures var ls := LinesOf(ts); ls[..|ls| - 1] == LinesOf(ts[..|ts| - 1]) && ls[|ls| - 1] == Line(ts[|ts| - 1])
  {
  }

  lemma LinesOfSnoc(ts: seq<Txn>, t: Txn)
    ensures LinesOf(ts + [t]) == LinesOf(ts) + [Line(t)]
  {
    assert (ts + [t])[..|ts|] == ts;
  }

  lemma {:induction false} LinesOfAreLines(ts: seq<Txn>)
    requires Good(ts)
    ensures |LinesOf(ts)| == |ts| && forall i :: 0 <= i < |ts| ==> OneLine(LinesOf(ts)[i])
  {
    if ts != [] {
      GoodInit(ts);
      LinesOfAreLines(ts[..|ts| - 1]);
      LineRoundTrip(ts[|ts| - 1]);
    }
  }

  lemma {:induction false} MaxOfLines(ts: seq<Txn>)
    requires Good(ts)
    ensures MaxSerial(LinesOf(ts)) == MaxOf(ts)
  {
    if ts != [] {
      GoodInit(ts);
      MaxOfLines(ts[..|ts| - 1]);
      LineRoundTrip(ts[|ts| - 1]);
      LinesOfInit(ts);
    }
  }

  lemma {:induction false} ReadLines(ts: seq<Txn>)
    requires Good(ts)
    ensures ReplyTxns(LinesOf(ts)) == ts && Parsable(LinesOf(ts)) == LinesOf(ts)
  {
    if ts != [] {
      GoodInit(ts);
      ReadLines(ts[..|ts| - 1]);
      LineRoundTrip(ts[|ts| - 1]);
      LinesOfInit(ts);
      InitLast(ts);
    }
  }

  // The transactions a query is about.
  function Involving(ts: seq<Txn>, u: string, v: Option<string>): seq<Txn>
  {
    if ts == [] then []
    else
      var rest, last := Involving(ts[..|ts| - 1], u, v), ts[|ts| - 1];
      if Mentions(last, u) || (v.Some? && Mentions(last, v.value)) then rest + [last] else rest
  }

  // How the second name travels.
  function Second(v: Option<string>): string { if v.Some? then Enc(v.value) else "*" }

  predicate GoodSecond(v: Option<string>) { v.Some? ==> Word(v.value) && v.value != "*" }

  lemma SecondIsStar(v: Option<string>)
    requires GoodSecond(v)
    ensures Second(v) == "*" <==> v.None?
  {
    if v.Some? {
      EncInjective(v.value, "*");
      assert Enc("*") == "*";
    }
  }

  lemma MatchesLine(t: Txn, u: string, v: Option<string>)
    requires GoodTxn(t) && GoodSecond(v)
    ensures Matches(Line(t), Enc(u), Second(v)) <==> Mentions(t, u) || (v.Some? && Mentions(t, v.value))
  {
    LineRoundTrip(t);
    SecondIsStar(v);
    EncInjective(t.sender, u);
    EncInjective(t.receiver, u);
    if v.Some? {
      EncInjective(t.sender, v.value);
      EncInjective(t.receiver, v.value);
    }
  }

  // On ciphertext the backend selects the rows that mention the plain names.
  lemma {:induction false} MatchingLines(ts: seq<Txn>, u: string, v: Option<string>)
    requires Good(ts) && GoodSecond(v)
    ensures Matching(LinesOf(ts), Enc(u), Second(v)) == LinesOf(Involving(ts, u, v))
  {
    if ts != [] {
      var init, t := ts[..|ts| - 1], ts[|ts| - 1];
      GoodInit(ts);
      MatchingLines(init, u, v);
      MatchesLine(t, u, v);
      LinesOfInit(ts);
      LinesOfSnoc(Involving(init, u, v), t);
    }
  }

  lemma {:induction false} InvolvingGood(ts: seq<Txn>, u: string, v: Option<string>)
    requires Good(ts)
    ensures Good(Involving(ts, u, v))
  {
    if ts != [] {
      GoodInit(ts);
      InvolvingGood(ts[..|ts| - 1], u, v);
    }
  }

  lemma {:induction false} InvolvingConcat(xs: seq<Txn>, ys: seq<Txn>, u: string, v: Option<string>)
    ensures Involving(xs + ys, u, v) == Involving(xs, u, v) + Involving(ys, u, v)
  {
    if ys == [] {
      assert xs + ys == xs;
    } else {
      InvolvingConcat(xs, ys[..|ys| - 1], u, v);
      assert (xs + ys)[..|xs + ys| - 1] == xs + ys[..|ys| - 1];
    }
  }

  lemma ReadReply(first: int, ts: seq<Txn>)
    requires Good(ts)
    ensures var ls := Lines(Render(first) + Hang(LinesOf(ts)));
      ls != [] && Strtol(ls[0]) == first && ReplyTxns(ls[1..]) == ts
  {
    LinesOfAreLines(ts);
    RenderIsWord(first);
    LinesHang(Render(first), LinesOf(ts));
    StrtolRender(first);
    ReadLines(ts);
    assert ([Render(first)] + LinesOf(ts))[1..] == LinesOf(ts);
  }

  // So the reply to a query carries exactly the transactions asked for and the backend's highest serial.
  lemma ReadQueryReply(ts: seq<Txn>, u: string, v: Option<string>)
    requires Good(ts) && GoodSecond(v)
    ensures var ls := Lines(QueryReply(LinesOf(ts), Enc(u), Second(v)));
      ls != [] && Strtol(ls[0]) == MaxOf(ts) && ReplyTxns(ls[1..]) == Involving(ts, u, v)
  {
    MatchingLines(ts, u, v);
    MaxOfLines(ts);
    InvolvingGood(ts, u, v);
    ReadReply(MaxOf(ts), Involving(ts, u, v));
  }

  lemma ReadAllReply(ts: seq<Txn>)
    requires Good(ts)
    ensures var ls := Lines(AllReply(LinesOf(ts)));
      ls != [] && Strtol(ls[0]) == MaxOf(ts) && ReplyTxns(ls[1..]) == ts
  {
    ReadLines(ts);
    MaxOfLines(ts);
    ReadReply(MaxOf(ts), ts);
  }

  // ---- The main server ----

  function QueryMsg(e1: string, e2: string): string { "QUERY " + e1 + " " + e2 }

  function NewMsg(serial: int, es: string, er: string, ea: string): string
  {
    "NEW " + (Render(serial) + " " + es + " " + er + " " + ea)
  }

  lemma BlankFirst(x: string, y: string, z: string)
    ensures x + " " + y + " " + z == x + (" " + y + " " + z)
  {
  }

  lemma TokensOfQuery(e1: string, e2: string)
    requires Word(e1) && Word(e2)
    ensures Tokens(QueryMsg(e1, e2)) == ["QUERY", e1, e2]
  {
    SpacedTwo(e1, e2);
    TokensSpaced([e1, e2]);
    TokensWord("QUERY", Spaced([e1, e2]));
    assert "QUERY" + " " == "QUERY ";
    BlankFirst("QUERY", e1, e2);
  }

  lemma TokensOfAll()
    ensures Tokens("ALL") == ["ALL"]
  {
    TokensWord("ALL", "");
    assert "ALL" + "" == "ALL";
  }

  lemma NewParts(line: string)
    requires OneLine(line)
    ensures RestOfLine("NEW " + line) == line && Tokens("NEW " + line) == ["NEW"] + Tokens(" " + line)
  {
    var msg, behind := "NEW " + line, " " + line;
    assert msg == "NEW" + behind;
    TokensWord("NEW", behind);
    assert msg[0] == 'N' && msg[1] == 'E' && msg[2] == 'W' && msg[3] == ' ';
    assert WordLen(msg) == 3 && msg[3..] == behind;
    assert LineLen(behind) == |behind| && behind[..|behind|] == behind && behind[1..] == line;
  }

  lemma NewIsLine(t: Txn)
    requires GoodTxn(t)
    ensures var msg := NewMsg(t.serial, Enc(t.sender), Enc(t.receiver), Enc(Render(t.amount)));
      && Tokens(msg) != [] && Tokens(msg)[0] == "NEW" && RestOfLine(msg) == Line(t)
  {
    RowLineText(t.serial, Enc(t.sender), Enc(t.receiver), Enc(Render(t.amount)));
    LineRoundTrip(t);
    NewParts(Line(t));
  }

  method InsertBySerial(sorted: seq<Txn>, t: Txn) returns (out: seq<Txn>)
    requires Sorted(sorted)
    ensures multiset(out) == multiset(sorted) + multiset{t} && Sorted(out)
  {
    var j := |sorted|;
    while j > 0 && sorted[j - 1].serial > t.serial
      invariant 0 <= j <= |sorted| && (j < |sorted| ==> sorted[j].serial > t.serial)
    {
      j := j - 1;
    }
    InsertSorted(sorted, j, t);
    InsertMultiset(sorted, j, t);
    out := sorted[..j] + [t] + sorted[j..];
  }

  lemma InsertMultiset(s: seq<Txn>, j: nat, t: Txn)
    requires j <= |s|
    ensures multiset(s[..j] + [t] + s[j..]) == multiset(s) + multiset{t}
  {
    assert s == s[..j] + s[j..];
  }

  lemma InsertSorted(s: seq<Txn>, j: nat, t: Txn)
    requires j <= |s| && Sorted(s)
    requires (j > 0 ==> s[j - 1].serial <= t.serial) && (j < |s| ==> t.serial < s[j].serial)
    ensures Sorted(s[..j] + [t] + s[j..])
  {
    var r := s[..j] + [t] + s[j..];
    forall i, k | 0 <= i < k < |r| ensures r[i].serial <= r[k].serial {
      assert r[i] == if i < j then s[i] else if i == j then t else s[i - 1];
      assert r[k] == if k < j then s[k] else if k == j then t else s[k - 1];
    }
  }

  // std::sort by serial, which fixes the outcome because no two serials are equal.
  method SortBySerial(all: seq<Txn>) returns (out: seq<Txn>)
    ensures multiset(out) == multiset(all) && Sorted(out)
  {
    out := [];
    for i := 0 to |all|
      invariant multiset(out) == multiset(all[..i]) && Sorted(out)
    {
      TakeSnoc(all, i);
      out := InsertBySerial(out, all[i]);
    }
    assert all[..|all|] == all;
  }

  // The parts held by the backends are the ledger, in some distribution.
  ghost predicate Spread(pa: seq<Txn>, pb: seq<Txn>, pc: seq<Txn>, ledger: seq<Txn>)
  {
    && Good(pa) && Good(pb) && Good(pc) && Good(ledger) && InOrder(ledger)
    && multiset(pa + pb + pc) == multiset(ledger)
  }

  class MainServer {
    const a: Backend
    const b: Backend
    const c: Backend
    ghost var pa: seq<Txn>
    ghost var pb: seq<Txn>
    ghost var pc: seq<Txn>
    ghost var ledger: seq<Txn>

    ghost predicate Valid()
      reads this, a, b, c
    {
      && a != b && a != c && b != c
      && a.lines == LinesOf(pa) && b.lines == LinesOf(pb) && c.lines == LinesOf(pc)
      && Spread(pa, pb, pc, ledger)
    }

    constructor (a: Backend, b: Backend, c: Backend, ghost pa: seq<Txn>, ghost pb: seq<Txn>, ghost pc: seq<Txn>,
                 ghost ledger: seq<Txn>)
      requires a != b && a != c && b != c
      requires a.lines == LinesOf(pa) && b.lines == LinesOf(pb) && c.lines == LinesOf(pc) && Spread(pa, pb, pc, ledger)
      ensures Valid() && this.ledger == ledger && this.a == a && this.b == b && this.c == c
    {
      this.a := a;
      this.b := b;
      this.c := c;
      this.pa := pa;
      this.pb := pb;
      this.pc := pc;
      this.ledger := ledger;
    }

    function Server(i: nat): Backend
    {
      if i == 0 then a else if i == 1 then b else c
    }

    ghost function Part(i: nat): seq<Txn>
      reads this
    {
      if i == 0 then pa else if i == 1 then pb else pc
    }

    ghost function Parts(n: nat): seq<Txn>
      reads this
    {
      if n == 0 then [] else Parts(n - 1) + Part(n - 1)
    }

    lemma AllParts()
      ensures Parts(3) == pa + pb + pc
    {
      assert Parts(1) == [] + pa == pa;
      assert Parts(2) == pa + pb;
    }

    // Ask all three backends about the given names; the second may be the star.
    method QueryAll(enc1: string, enc2: string, ghost u: string, ghost v: Option<string>)
      returns (txns: seq<Txn>, maxSerial: int)
      requires Valid() && Word(u) && GoodSecond(v) && enc1 == Enc(u) && enc2 == Second(v)
      ensures txns == Involving(pa + pb + pc, u, v) && maxSerial == |ledger|
    {
      var req := "QUERY " + enc1 + " " + enc2;
      EncDec(u);
      if v.Some? {
        EncDec(v.value);
      }
      TokensOfQuery(enc1, enc2);
      txns, maxSerial := [], 0;
      for i := 0 to 3
        invariant txns == Involving(Parts(i), u, v) && maxSerial == MaxOf(Parts(i))
      {
        var reply := Server(i).HandleRead(req);
        ReadNextPart(Parts(i), Part(i), u, v);
        txns, maxSerial := ParseQueryReply(reply, txns, maxSerial);
      }
      AllParts();
      MaxIsLength(pa + pb + pc, ledger);
    }

    method DoCheckWallet(user: string) returns (reply: string)
      requires Valid() && Word(user)
      ensures reply == WalletReply(ledger, user)
    {
      var encUser := EncStr(user);
      var txns, maxSerial := QueryAll(encUser, "*", user, None);
      Asked(pa + pb + pc, ledger, user, user, None);
      NotEmptyIsKnown(pa + pb + pc, user);
      if txns == [] {
        return "NOTFOUND";
      }
      var balance := SumWallet(txns, user);
      reply := "FOUND " + Render(balance);
    }

    // The reading half of a transfer: what comes of it, and the next serial.
    method Quote(encS: string, encR: string, sender: string, receiver: string, amount: int)
      returns (outcome: Outcome, serial: int)
      requires Valid() && Word(sender) && Word(receiver) && receiver != "*"
      requires encS == Enc(sender) && encR == Enc(receiver)
      ensures outcome == TransferOutcome(ledger, sender, receiver, amount) && serial == |ledger| + 1
    {
      var txns, maxSerial := QueryAll(encS, encR, sender, Some(receiver));
      Asked(pa + pb + pc, ledger, sender, sender, Some(receiver));
      Asked(pa + pb + pc, ledger, receiver, sender, Some(receiver));
      var senderFound, receiverFound, senderBalance := Survey(txns, sender, receiver);
      serial := maxSerial + 1;
      if !senderFound && !receiverFound {
        outcome := MissingBoth;
      } else if !senderFound {
        outcome := MissingSender;
      } else if !receiverFound {
        outcome := MissingReceiver;
      } else if senderBalance < amount {
        outcome := Insufficient(senderBalance);
      } else {
        outcome := Success(senderBalance - amount);
      }
    }

    // `pick` is the random number that chooses the backend. Nothing the requester sees depends on it.
    method DoTxcoins(sender: string, receiver: string, amount: int, pick: nat) returns (reply: string)
      requires Valid() && Word(sender) && Word(receiver) && receiver != "*"
      modifies this`pa, this`pb, this`pc, this`ledger, a, b, c
      ensures Valid() && ledger == After(old(ledger), TxCoins(sender, receiver, amount))
      ensures reply == Told(TransferOutcome(old(ledger), sender, receiver, amount))
    {
      var encS := EncStr(sender);
      var encR := EncStr(receiver);
      var outcome, serial := Quote(encS, encR, sender, receiver, amount);
      if outcome.Success? {
        Record(serial, encS, encR, pick % 3, Txn(serial, sender, receiver, amount));
      }
      reply := Told(outcome);
    }

    // Hand the ciphered entry to one backend.
    method Record(serial: int, encS: string, encR: string, pick: nat, t: Txn)
      requires Valid() && pick < 3 && GoodTxn(t) && serial == t.serial == |ledger| + 1
      requires encS == Enc(t.sender) && encR == Enc(t.receiver)
      modifies this`pa, this`pb, this`pc, this`ledger, a, b, c
      ensures Valid() && ledger == old(ledger) + [t]
    {
      SpreadOut(pa, pb, pc, ledger, t);
      ledger := ledger + [t];
      Post(Server(pick), serial, encS, encR, t);
      if pick == 0 {
        LinesOfSnoc(pa, t);
        pa := pa + [t];
      } else if pick == 1 {
        LinesOfSnoc(pb, t);
        pb := pb + [t];
      } else {
        LinesOfSnoc(pc, t);
        pc := pc + [t];
      }
    }

    method Post(server: Backend, serial: int, encS: string, encR: string, t: Txn)
      requires GoodTxn(t) && serial == t.serial && encS == Enc(t.sender) && encR == Enc(t.receiver)
      modifies server
      ensures server.lines == old(server.lines) + [Line(t)]
    {
      var encA := EncStr(Render(t.amount));
      var entry := "NEW " + (Render(serial) + " " + encS + " " + encR + " " + encA);
      NewIsLine(t);
      LineRoundTrip(t);
      var ok := server.Handle(entry);
    }

    // The monitor's request: gather everything, sort it, and write the statement in the plain.
    method DoTxlist() returns (reply: string, file: string)
      requires Valid()
      ensures Response(reply, Some(file)) == Answer(ledger, TxList)
    {
      var all := GatherAll();
      all := SortBySerial(all);
      SortedIsLedger(all, ledger);
      file := WriteStatement(all);
      reply := "OK";
    }

    method GatherAll() returns (all: seq<Txn>)
      requires Valid()
      ensures all == pa + pb + pc
    {
      var maxSerial := 0;
      all := [];
      TokensOfAll();
      for i := 0 to 3
        invariant all == Parts(i)
      {
        var answer := Server(i).HandleRead("ALL");
        ReadAllReply(Part(i));
        all, maxSerial := ParseQueryReply(answer, all, maxSerial);
      }
      AllParts();
    }

    // The server's loop: every request of a run is answered as the single plain ledger answers it, whatever
    // backends the random numbers choose.
    method Serve(reqs: seq<Request>, picks: seq<nat>) returns (out: seq<Response>)
      requires Valid() && |picks| == |reqs| && forall i :: 0 <= i < |reqs| ==> GoodRequest(reqs[i])
      modifies this`pa, this`pb, this`pc, this`ledger, a, b, c
      ensures Valid() && out == Answers(old(ledger), reqs) && ledger == Ledger(old(ledger), reqs)
    {
      out := [];
      for i := 0 to |reqs|
        invariant Valid() && out == Answers(old(ledger), reqs[..i]) && ledger == Ledger(old(ledger), reqs[..i])
      {
        assert reqs[..i + 1][..i] == reqs[..i];
        assert GoodRequest(reqs[i]);
        var response := HandleRequest(reqs[i], picks[i]);
        out := out + [response];
      }
      assert reqs[..|reqs|] == reqs;
    }

    method HandleRequest(req: Request, pick: nat) returns (response: Response)
      requires Valid() && GoodRequest(req)
      modifies this`pa, this`pb, this`pc, this`ledger, a, b, c
      ensures Valid() && response == Answer(old(ledger), req) && ledger == After(old(ledger), req)
    {
      match req
      case CheckWallet(user) =>
        var reply := DoCheckWallet(user);
        response := Response(reply, None);
      case TxCoins(sender, receiver, amount) =>
        var reply := DoTxcoins(sender, receiver, amount, pick);
        response := Response(reply, None);
      case TxList =>
        var reply, file := DoTxlist();
        response := Response(reply, Some(file));
    }
  }

  // Names are words; a star as receiver would be taken for no name at all.
  predicate GoodRequest(req: Request)
  {
    match req
    case CheckWallet(u) => Word(u)
    case TxCoins(s, r, _) => Word(s) && Word(r) && r != "*"
    case TxList => true
  }

  // What the reply of one more backend adds.
  lemma ReadNextPart(before: seq<Txn>, part: seq<Txn>, u: string, v: Option<string>)
    requires Good(part) && GoodSecond(v)
    ensures var ls := Lines(QueryReply(LinesOf(part), Enc(u), Second(v)));
      && ls != [] && Involving(before, u, v) + ReplyTxns(ls[1..]) == Involving(before + part, u, v)
      && MaxOf(before + part) == if Strtol(ls[0]) > MaxOf(before) then Strtol(ls[0]) else MaxOf(before)
  {
    ReadQueryReply(part, u, v);
    InvolvingConcat(before, part, u, v);
    MaxConcat(before, part);
  }

  lemma {:induction false} MaxConcat(xs: seq<Txn>, ys: seq<Txn>)
    ensures MaxOf(xs + ys) == if MaxOf(ys) > MaxOf(xs) then MaxOf(ys) else MaxOf(xs)
  {
    if ys == [] {
      assert xs + ys == xs;
      MaxIs(xs);
    } else {
      MaxConcat(xs, ys[..|ys| - 1]);
      assert (xs + ys)[..|xs + ys| - 1] == xs + ys[..|ys| - 1];
    }
  }

  // A name asked for is known, and its balance is, what the selected transactions say.
  lemma {:induction false} InvolvingSays(ts: seq<Txn>, w: string, u: string, v: Option<string>)
    requires w == u || v == Some(w)
    ensures Known(Involving(ts, u, v), w) == Known(ts, w) && Flow(Involving(ts, u, v), w) == Flow(ts, w)
  {
    if ts != [] {
      var init, t := ts[..|ts| - 1], ts[|ts| - 1];
      InvolvingSays(init, w, u, v);
      FlowSnoc(Involving(init, u, v), t, w);
    }
  }

  lemma Asked(parts: seq<Txn>, ledger: seq<Txn>, w: string, u: string, v: Option<string>)
    requires multiset(parts) == multiset(ledger) && (w == u || v == Some(w))
    ensures Known(Involving(parts, u, v), w) == Known(ledger, w)
    ensures Flow(Involving(parts, u, v), w) == Flow(ledger, w)
  {
    InvolvingSays(parts, w, u, v);
    FlowPerm(parts, ledger, w);
    KnownPerm(parts, ledger, w);
  }

  lemma {:induction false} NotEmptyIsKnown(ts: seq<Txn>, u: string)
    ensures Involving(ts, u, None) != [] <==> Known(Involving(ts, u, None), u)
  {
    if ts != [] {
      NotEmptyIsKnown(ts[..|ts| - 1], u);
      FlowSnoc(Involving(ts[..|ts| - 1], u, None), ts[|ts| - 1], u);
    }
  }

  // One line a transaction, in the plain.
  method WriteStatement(all: seq<Txn>) returns (file: string)
    ensures file == Statement(all)
  {
    file := "";
    for i := 0 to |all|
      invariant file == Statement(all[..i])
    {
      assert all[..i + 1][..i] == all[..i];
      var t := all[i];
      file := file + (Render(t.serial) + " " + t.sender + " " + t.receiver + " " + Render(t.amount) + "\n");
    }
    assert all[..|all|] == all;
  }

  // The loop of a balance request over the selected transactions.
  method SumWallet(txns: seq<Txn>, user: string) returns (balance: int)
    ensures balance == Balance(txns, user)
  {
    balance := INITIAL_BALANCE;
    for i := 0 to |txns|
      invariant balance == Balance(txns[..i], user)
    {
      assert txns[..i + 1][..i] == txns[..i];
      if txns[i].receiver == user {
        balance := balance + txns[i].amount;
      }
      if txns[i].sender == user {
        balance := balance - txns[i].amount;
      }
    }
    assert txns[..|txns|] == txns;
  }

  // The loop of a transfer over the selected transactions.
  method Survey(txns: seq<Txn>, sender: string, receiver: string)
    returns (senderFound: bool, receiverFound: bool, senderBalance: int)
    ensures senderFound == Known(txns, sender) && receiverFound == Known(txns, receiver)
    ensures senderBalance == Balance(txns, sender)
  {
    senderFound, receiverFound, senderBalance := false, false, INITIAL_BALANCE;
    for i := 0 to |txns|
      invariant senderFound == Known(txns[..i], sender) && receiverFound == Known(txns[..i], receiver)
      invariant senderBalance == Balance(txns[..i], sender)
    {
      assert txns[..i + 1][..i] == txns[..i];
      var t := txns[i];
      if t.sender == sender || t.receiver == sender {
        senderFound := true;
      }
      if t.sender == receiver || t.receiver == receiver {
        receiverFound := true;
      }
      if t.receiver == sender {
        senderBalance := senderBalance + t.amount;
      }
      if t.sender == sender {
        senderBalance := senderBalance - t.amount;
      }
    }
    assert txns[..|txns|] == txns;
  }

  // Wherever the new transaction goes, the distribution is one of the longer ledger.
  lemma SpreadOut(pa: seq<Txn>, pb: seq<Txn>, pc: seq<Txn>, ledger: seq<Txn>, t: Txn)
    requires Spread(pa, pb, pc, ledger) && GoodTxn(t) && t.serial == |ledger| + 1
    ensures Spread(pa + [t], pb, pc, ledger + [t])
    ensures Spread(pa, pb + [t], pc, ledger + [t])
    ensures Spread(pa, pb, pc + [t], ledger + [t])
  {
  }
}
