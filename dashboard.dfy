/** The month summary of src/pages/Dashboard.tsx: the date range of the
    selected month, the income and expense totals and the expense groups, the
    balance and the share of income spent, and the card expenses grouped by
    card. The rows are what the backend returned for the user and the month;
    the card invoices are the rows of `faturas` for that month. */
module Dashboard {
  import opened Common
  import opened Calendar
  import opened IsoText
  import opened Records

  // ---------------------------------------------------------------------
  // The month's date range

  /** `startDate` and `endDate` for the zero-based month `mes` of `ano`. */
  function MonthRange(mes: int, ano: int): (r: (string, string))
    requires 0 <= mes <= 11
  {
    var start := DecimalString(ano) + "-" + PadStart2(NatString(mes + 1)) + "-01";
    var end := if mes == 11 then DecimalString(ano + 1) + "-01-01"
               else DecimalString(ano) + "-" + PadStart2(NatString(mes + 2)) + "-01";
    (start, end)
  }

  lemma FixedDay1()
    ensures Fixed(1, 2) == "01"
  {
    assert Fixed(0, 1) == "0" by { assert Fixed(0, 0) == ""; }
  }

  lemma YearText(y: int)
    requires 1000 <= y <= 9999
    ensures DecimalString(y) == Fixed(y, 4)
  {
    assert Pow10(3) == 1000 && Pow10(4) == 10000;
    NatStringFixed(y, 4);
  }

  /** The text `ano-MM-01` built from `String` and `padStart` is the ISO date
      of the first day of month `m`. */
  lemma FirstDayText(ano: int, m: int)
    requires 1000 <= ano <= 9999 && 1 <= m <= 12
    ensures DecimalString(ano) + "-" + PadStart2(NatString(m)) + "-01" == IsoDate(Date(ano, m, 1))
  {
    YearText(ano);
    FixedDay1();
    PaddedMonth(m);
    var y := Fixed(ano, 4);
    var mm := Fixed(m, 2);
    assert IsoDate(Date(ano, m, 1)) == y + ("-" + (mm + ("-" + "01")));
    assert y + "-" + mm + "-01" == y + ("-" + (mm + ("-" + "01")));
  }

  lemma NewYearText(ano: int)
    requires 1000 <= ano <= 9999
    ensures DecimalString(ano) + "-01-01" == IsoDate(Date(ano, 1, 1))
  {
    YearText(ano);
    FixedDay1();
    var y := Fixed(ano, 4);
    assert IsoDate(Date(ano, 1, 1)) == y + ("-" + ("01" + ("-" + "01")));
    assert "-01-01" == "-" + ("01" + ("-" + "01"));
  }

  /** For four-digit years the range strings are the ISO dates of the first
      day of the month and of the first day of the month after; December's
      range ends on January 1 of the next year. */
  lemma MonthRangeIsIso(mes: int, ano: int)
    requires 0 <= mes <= 11 && 1000 <= ano <= 9998
    ensures var first := Date(ano, mes + 1, 1);
      MonthRange(mes, ano) == (IsoDate(first), IsoDate(MonthStart(first, 1)))
    ensures mes == 11 ==> MonthRange(mes, ano).1 == IsoDate(Date(ano + 1, 1, 1))
  {
    FirstDayText(ano, mes + 1);
    if mes == 11 {
      DecemberRangeEnd(ano);
    } else {
      OtherRangeEnd(mes, ano);
    }
  }

  lemma DecemberRangeEnd(ano: int)
    requires 1000 <= ano <= 9998
    ensures MonthRange(11, ano).1 == IsoDate(Date(ano + 1, 1, 1))
    ensures MonthStart(Date(ano, 12, 1), 1) == Date(ano + 1, 1, 1)
  {
    NewYearText(ano + 1);
  }

  lemma OtherRangeEnd(mes: int, ano: int)
    requires 0 <= mes < 11 && 1000 <= ano <= 9998
    ensures MonthRange(mes, ano).1 == IsoDate(Date(ano, mes + 2, 1))
    ensures MonthStart(Date(ano, mes + 1, 1), 1) == Date(ano, mes + 2, 1)
  {
    FirstDayText(ano, mes + 2);
  }

  /** The first day of the month is a month-start in range, and so is the first
      day of the next one. */
  lemma MonthBounds(mes: int, ano: int, d: Date)
    requires 0 <= mes <= 11 && ValidDate(d)
    ensures var first := Date(ano, mes + 1, 1);
      (!Before(d, first) && Before(d, MonthStart(first, 1))) <==> (d.year == ano && d.month == mes + 1)
  {
    var first := Date(ano, mes + 1, 1);
    var next := MonthStart(first, 1);
    if d.year == ano && d.month == mes + 1 {
      MonthIndexOrder(d, next);
    }
    if !Before(d, first) && Before(d, next) {
      assert MonthIndex(d) >= MonthIndex(first);
      assert MonthIndex(d) < MonthIndex(next);
    }
  }

  /** The query `.gte("data", startDate).lt("data", endDate)` selects exactly
      the dates of the chosen month, whether `data` is compared as a date or
      as ISO text; and the start precedes the end. */
  lemma MonthRangeSelectsMonth(mes: int, ano: int, d: Date)
    requires 0 <= mes <= 11 && 1000 <= ano <= 9998
    requires ValidDate(d) && 0 <= d.year <= 9999
    ensures var r := MonthRange(mes, ano);
      (!Less(IsoDate(d), r.0) && Less(IsoDate(d), r.1)) <==> (d.year == ano && d.month == mes + 1)
    ensures Less(MonthRange(mes, ano).0, MonthRange(mes, ano).1)
  {
    var first := Date(ano, mes + 1, 1);
    var next := MonthStart(first, 1);
    MonthRangeIsIso(mes, ano);
    IsoOrder(d, first);
    IsoOrder(d, next);
    IsoOrder(first, next);
    MonthIndexOrder(first, next);
    MonthBounds(mes, ano, d);
  }

  // ---------------------------------------------------------------------
  // Totals and expense groups

  predicate IsReceita(x: Row) { x.entry.tipo == "receita" }
  predicate IsDespesa(x: Row) { x.entry.tipo == "despesa" }
  predicate IsFixo(x: Row) { x.entry.fixo }
  predicate IsFixoAvista(x: Row) { x.entry.fixo && x.entry.metodo == "avista" }
  predicate IsCartao(x: Row) { x.entry.metodo == "cartao" }
  predicate NotCartao(x: Row) { x.entry.metodo != "cartao" }
  predicate IsVariavelAvista(x: Row) { !x.entry.fixo && x.entry.metodo == "avista" }

  datatype Stats = Stats(
    totalReceita: real,
    totalDespesa: real,
    fixasReceita: seq<Row>,
    fixasDespesa: seq<Row>,
    cartaoLanc: seq<Row>,
    variaveis: seq<Row>)

  /** The `stats` memo. */
  function ComputeStats(rows: seq<Row>): (s: Stats)
    ensures s.totalReceita == SumValor(Filter(rows, IsReceita))
    ensures s.totalDespesa == SumValor(Filter(rows, IsDespesa))
    ensures forall x :: x in s.fixasReceita <==> x in rows && IsReceita(x) && x.entry.fixo
    ensures forall x :: x in s.fixasDespesa <==> x in rows && IsDespesa(x) && x.entry.fixo && x.entry.metodo == "avista"
    ensures forall x :: x in s.cartaoLanc <==> x in rows && IsDespesa(x) && x.entry.metodo == "cartao"
    ensures forall x :: x in s.variaveis <==> x in rows && IsDespesa(x) && !x.entry.fixo && x.entry.metodo == "avista"
  {
    var receitas := Filter(rows, IsReceita);
    var despesas := Filter(rows, IsDespesa);
    Stats(SumValor(receitas), SumValor(despesas),
          Filter(receitas, IsFixo), Filter(despesas, IsFixoAvista),
          Filter(despesas, IsCartao), Filter(despesas, IsVariavelAvista))
  }

  /** The three expense lists never share a row, and no expense is in none of
      them when every expense is paid "avista" or "cartao"; then their totals
      add up to the expense total. */
  lemma ExpensesPartition(rows: seq<Row>)
    ensures var s := ComputeStats(rows);
      forall x :: !(x in s.fixasDespesa && x in s.cartaoLanc) && !(x in s.fixasDespesa && x in s.variaveis)
                  && !(x in s.cartaoLanc && x in s.variaveis)
    ensures (forall x :: x in rows && IsDespesa(x) ==> x.entry.metodo == "avista" || x.entry.metodo == "cartao") ==>
      var s := ComputeStats(rows);
      SumValor(s.fixasDespesa) + SumValor(s.cartaoLanc) + SumValor(s.variaveis) == s.totalDespesa
  {
    var despesas := Filter(rows, IsDespesa);
    if forall x :: x in rows && IsDespesa(x) ==> x.entry.metodo == "avista" || x.entry.metodo == "cartao" {
      var rest := Filter(despesas, NotCartao);
      SumFilterSplit(despesas, IsCartao, NotCartao);
      SumFilterSplit(rest, IsFixo, (x: Row) => !IsFixo(x));
      FilterFilter(despesas, NotCartao, IsFixo, (x: Row) => NotCartao(x) && IsFixo(x));
      FilterExt(despesas, (x: Row) => NotCartao(x) && IsFixo(x), IsFixoAvista);
      FilterFilter(despesas, NotCartao, (x: Row) => !IsFixo(x), (x: Row) => NotCartao(x) && !IsFixo(x));
      FilterExt(despesas, (x: Row) => NotCartao(x) && !IsFixo(x), IsVariavelAvista);
    }
  }

  /** `saldo` */
  function Saldo(s: Stats): (r: real)
    ensures r >= 0.0 <==> s.totalDespesa <= s.totalReceita
  {
    s.totalReceita - s.totalDespesa
  }

  /** `pctGasto`: the expenses as a whole percentage of the income, capped at
      100, and 0 without income. */
  function PctGasto(totalReceita: real, totalDespesa: real): (r: int)
    ensures totalReceita <= 0.0 ==> r == 0
    ensures r <= 100
    ensures totalReceita > 0.0 && totalDespesa >= 0.0 ==> r >= 0
    ensures totalReceita > 0.0 && totalDespesa >= totalReceita ==> r == 100
    ensures totalReceita > 0.0 && r < 100 ==> totalDespesa < totalReceita
    ensures totalReceita > 0.0 ==>
      var p := totalDespesa / totalReceita * 100.0;
      (r < 100 ==> r as real - 0.5 <= p < r as real + 0.5) && (r == 100 ==> p >= 99.5)
  {
    if totalReceita > 0.0 then
      var q := totalDespesa / totalReceita;
      assert totalDespesa >= totalReceita ==> q >= 1.0;
      assert totalDespesa >= 0.0 ==> q >= 0.0;
      Min(100, MathRound(q * 100.0))
    else 0
  }

  /** Spending beyond the income shows a negative balance and a full bar. */
  lemma OverspendingShowsFull(rows: seq<Row>)
    requires ComputeStats(rows).totalReceita > 0.0
    ensures var s := ComputeStats(rows);
      Saldo(s) < 0.0 ==> PctGasto(s.totalReceita, s.totalDespesa) == 100
  {
  }

  // ---------------------------------------------------------------------
  // Card expenses grouped by card

  datatype CardGroup = CardGroup(cartao: Cartao, total: real, pago: bool)

  /** `cartoes.find((c) => c.id === id)` */
  function CardById(cartoes: seq<Cartao>, id: string): (r: Option<Cartao>)
    ensures r.Some? ==> r.value in cartoes && r.value.id == id
    ensures r.None? <==> forall c :: c in cartoes ==> c.id != id
  {
    if cartoes == [] then None
    else if cartoes[0].id == id then Some(cartoes[0])
    else CardById(cartoes[1..], id)
  }

  /** `faturas.find((f) => f.cartao_id === id)?.pago ?? false` */
  function PaidFlag(faturas: seq<Fatura>, id: string): (b: bool)
    ensures b ==> exists f :: f in faturas && f.cartaoId == id && f.pago
    ensures (forall f :: f in faturas ==> f.cartaoId != id) ==> !b
  {
    if faturas == [] then false
    else if faturas[0].cartaoId == id then faturas[0].pago
    else PaidFlag(faturas[1..], id)
  }

  /** Invoice `i` is the first one of card `id`. */
  predicate FirstOfCard(faturas: seq<Fatura>, id: string, i: int) {
    0 <= i < |faturas| && faturas[i].cartaoId == id
    && forall j :: 0 <= j < i ==> faturas[j].cartaoId != id
  }

  /** The flag is the paid flag of the card's first invoice. */
  lemma {:induction false} PaidIsFirstInvoice(faturas: seq<Fatura>, id: string)
    ensures forall i :: FirstOfCard(faturas, id, i) ==> PaidFlag(faturas, id) == faturas[i].pago
  {
    if faturas != [] && faturas[0].cartaoId != id {
      var t := faturas[1..];
      PaidIsFirstInvoice(t, id);
      forall i | FirstOfCard(faturas, id, i) ensures PaidFlag(faturas, id) == faturas[i].pago {
        assert i > 0 && t[i - 1] == faturas[i];
        assert FirstOfCard(t, id, i - 1) by {
          forall j | 0 <= j < i - 1 ensures t[j].cartaoId != id { assert t[j] == faturas[j + 1]; }
        }
      }
    }
  }

  /** The row names card `id` and `id` is a known card. */
  predicate CountsFor(x: Row, cartoes: seq<Cartao>, id: string) {
    x.entry.cartaoId == Some(id) && id != "" && CardById(cartoes, id).Some?
  }

  /** The card ids of the groups, in the order their first row appears. */
  function GroupIds(rows: seq<Row>, cartoes: seq<Cartao>): (ids: seq<string>)
    ensures forall i, j :: 0 <= i < j < |ids| ==> ids[i] != ids[j]
    ensures forall id :: id in ids <==> exists x :: x in rows && CountsFor(x, cartoes, id)
  {
    if rows == [] then []
    else
      var init := rows[..|rows| - 1];
      var last := rows[|rows| - 1];
      var ids := GroupIds(init, cartoes);
      assert rows == init + [last];
      CountsSnoc(init, last, cartoes);
      match last.entry.cartaoId
      case Some(id) =>
        assert forall id' :: CountsFor(last, cartoes, id') <==> id' == id && id != "" && CardById(cartoes, id).Some?;
        var r := if id != "" && CardById(cartoes, id).Some? && id !in ids then ids + [id] else ids;
        assert forall id' :: id' in r <==> id' in ids || CountsFor(last, cartoes, id');
        assert forall id' :: (id' in ids || CountsFor(last, cartoes, id')) <==> exists x :: x in rows && CountsFor(x, cartoes, id');
        r
      case None =>
        assert forall id' :: !CountsFor(last, cartoes, id');
        ids
  }

  lemma CountsSnoc(init: seq<Row>, last: Row, cartoes: seq<Cartao>)
    ensures forall id :: (exists x :: x in init + [last] && CountsFor(x, cartoes, id))
                         <==> (exists x :: x in init && CountsFor(x, cartoes, id)) || CountsFor(last, cartoes, id)
  {
    forall id | exists x :: x in init + [last] && CountsFor(x, cartoes, id)
      ensures (exists x :: x in init && CountsFor(x, cartoes, id)) || CountsFor(last, cartoes, id)
    {
      var x :| x in init + [last] && CountsFor(x, cartoes, id);
      if x != last { assert x in init; }
    }
    forall id | CountsFor(last, cartoes, id) ensures exists x :: x in init + [last] && CountsFor(x, cartoes, id) {
      assert last in init + [last];
    }
  }

  /** The sum of valor over the rows that name card `id`. */
  function CardTotal(rows: seq<Row>, id: string): real {
    if rows == [] then 0.0
    else CardTotal(rows[..|rows| - 1], id)
         + (if rows[|rows| - 1].entry.cartaoId == Some(id) then rows[|rows| - 1].entry.valor else 0.0)
  }

  lemma {:induction false} CardTotalOfNone(rows: seq<Row>, id: string)
    requires forall x :: x in rows ==> x.entry.cartaoId != Some(id)
    ensures CardTotal(rows, id) == 0.0
  {
    if rows != [] {
      assert rows[|rows| - 1] in rows;
      CardTotalOfNone(rows[..|rows| - 1], id);
    }
  }

  /** The card total is the sum over the card's rows. */
  lemma {:induction false} CardTotalIsSum(rows: seq<Row>, id: string)
    ensures CardTotal(rows, id) == SumValor(Filter(rows, (x: Row) => x.entry.cartaoId == Some(id)))
  {
    if rows != [] {
      CardTotalIsSum(rows[..|rows| - 1], id);
      var p := (x: Row) => x.entry.cartaoId == Some(id);
      var last := rows[|rows| - 1];
      SumAppend(Filter(rows[..|rows| - 1], p), if p(last) then [last] else []);
    }
  }

  /** The groups of an earlier prefix of the rows are an initial part of the
      groups of all of them: a group's place is fixed by its first row. */
  lemma {:induction false} GroupIdsPrefix(rows: seq<Row>, cartoes: seq<Cartao>, k: nat)
    requires k <= |rows|
    ensures var g := GroupIds(rows[..k], cartoes);
      |g| <= |GroupIds(rows, cartoes)| && g == GroupIds(rows, cartoes)[..|g|]
    decreases |rows| - k
  {
    if k < |rows| {
      GroupIdsPrefix(rows, cartoes, k + 1);
      assert rows[..k + 1][..k] == rows[..k];
      var g := GroupIds(rows[..k], cartoes);
      var g1 := GroupIds(rows[..k + 1], cartoes);
      assert g == g1[..|g|];
    } else {
      assert rows[..k] == rows;
    }
  }

  lemma CardTotalSnoc(prefix: seq<Row>, l: Row, id: string)
    ensures CardTotal(prefix + [l], id)
            == CardTotal(prefix, id) + (if l.entry.cartaoId == Some(id) then l.entry.valor else 0.0)
  {
    assert (prefix + [l])[..|prefix|] == prefix;
  }

  lemma GroupIdsSnoc(prefix: seq<Row>, l: Row, cartoes: seq<Cartao>)
    ensures GroupIds(prefix + [l], cartoes)
            == (if l.entry.cartaoId.Some? && l.entry.cartaoId.value != ""
                   && CardById(cartoes, l.entry.cartaoId.value).Some?
                   && l.entry.cartaoId.value !in GroupIds(prefix, cartoes)
                then GroupIds(prefix, cartoes) + [l.entry.cartaoId.value]
                else GroupIds(prefix, cartoes))
  {
    assert (prefix + [l])[..|prefix|] == prefix;
  }

  /** The `cartaoGroups` memo: one group per known card named by a card
      expense, in order of its first row, with the card, the sum of its rows
      and whether its invoice for the month is paid. */
  method CartaoGroups(cartaoLanc: seq<Row>, cartoes: seq<Cartao>, faturas: seq<Fatura>)
    returns (groups: seq<CardGroup>)
    ensures |groups| == |GroupIds(cartaoLanc, cartoes)|
    ensures forall i :: 0 <= i < |groups| ==>
      var id := GroupIds(cartaoLanc, cartoes)[i];
      CardById(cartoes, id).Some?
      && groups[i] == CardGroup(CardById(cartoes, id).value, CardTotal(cartaoLanc, id), PaidFlag(faturas, id))
  {
    var byId: map<string, CardGroup> := map[];
    var order: seq<string> := [];
    var k := 0;
    while k < |cartaoLanc|
      invariant 0 <= k <= |cartaoLanc|
      invariant OrderAgrees(byId, order, cartaoLanc[..k], cartoes)
      invariant GroupsAgree(byId, cartaoLanc[..k], cartoes, faturas)
    {
      var l := cartaoLanc[k];
      assert cartaoLanc[..k + 1] == cartaoLanc[..k] + [l];
      if l.entry.cartaoId.Some? && l.entry.cartaoId.value != "" {
        var id := l.entry.cartaoId.value;
        if id in byId {
          var g := byId[id].(total := byId[id].total + l.entry.valor);
          AddKeepsOrder(byId, order, cartaoLanc[..k], l, id, g, cartoes);
          AddToGroup(byId, cartaoLanc[..k], l, id, cartoes, faturas);
          byId := byId[id := g];
        } else {
          var cartao := CardById(cartoes, id);
          if cartao.Some? {
            var g := CardGroup(cartao.value, l.entry.valor, PaidFlag(faturas, id));
            NewGroupOrder(byId, order, cartaoLanc[..k], l, id, g, cartoes);
            NewGroup(byId, order, cartaoLanc[..k], l, id, cartoes, faturas);
            byId := byId[id := g];
            order := order + [id];
          } else {
            SkipRow(byId, order, cartaoLanc[..k], l, cartoes, faturas);
          }
        }
      } else {
        SkipRow(byId, order, cartaoLanc[..k], l, cartoes, faturas);
      }
      k := k + 1;
    }
    assert cartaoLanc[..k] == cartaoLanc;
    groups := seq(|order|, i requires 0 <= i < |order| => byId[order[i]]);
  }

  /** Part of the loop state of `CartaoGroups` after `rows`: the group ids in
      order of first row, and a map entry for each. */
  ghost predicate OrderAgrees(byId: map<string, CardGroup>, order: seq<string>, rows: seq<Row>, cartoes: seq<Cartao>) {
    order == GroupIds(rows, cartoes) && byId.Keys == set id | id in order
  }

  /** The rest of the loop state: each map entry holds the card, the card's
      total so far and its paid flag. */
  ghost predicate GroupsAgree(byId: map<string, CardGroup>, rows: seq<Row>, cartoes: seq<Cartao>, faturas: seq<Fatura>) {
    forall id :: id in byId ==>
      CardById(cartoes, id).Some?
      && byId[id] == CardGroup(CardById(cartoes, id).value, CardTotal(rows, id), PaidFlag(faturas, id))
  }

  lemma AddKeepsOrder(byId: map<string, CardGroup>, order: seq<string>, prefix: seq<Row>, l: Row, id: string,
                      g: CardGroup, cartoes: seq<Cartao>)
    requires OrderAgrees(byId, order, prefix, cartoes)
    requires l.entry.cartaoId == Some(id) && id in byId
    ensures OrderAgrees(byId[id := g], order, prefix + [l], cartoes)
  {
    assert byId[id := g].Keys == byId.Keys;
    assert id in order;
    SameGroupIds(prefix, l, cartoes);
  }

  lemma AddToGroup(byId: map<string, CardGroup>, prefix: seq<Row>, l: Row, id: string,
                   cartoes: seq<Cartao>, faturas: seq<Fatura>)
    requires GroupsAgree(byId, prefix, cartoes, faturas)
    requires l.entry.cartaoId == Some(id) && id in byId
    ensures GroupsAgree(byId[id := byId[id].(total := byId[id].total + l.entry.valor)], prefix + [l], cartoes, faturas)
  {
    var m := byId[id := byId[id].(total := byId[id].total + l.entry.valor)];
    forall id' | id' in m
      ensures CardById(cartoes, id').Some?
              && m[id'] == CardGroup(CardById(cartoes, id').value, CardTotal(prefix + [l], id'), PaidFlag(faturas, id'))
    {
      GroupAfterRow(byId[id'], prefix, l, id', cartoes, faturas);
    }
  }

  /** A row adds its amount to the group of its own card and to no other. */
  lemma GroupAfterRow(g: CardGroup, prefix: seq<Row>, l: Row, id: string, cartoes: seq<Cartao>, faturas: seq<Fatura>)
    requires CardById(cartoes, id).Some?
    requires g == CardGroup(CardById(cartoes, id).value, CardTotal(prefix, id), PaidFlag(faturas, id))
    ensures (if l.entry.cartaoId == Some(id) then g.(total := g.total + l.entry.valor) else g)
            == CardGroup(CardById(cartoes, id).value, CardTotal(prefix + [l], id), PaidFlag(faturas, id))
  {
    CardTotalSnoc(prefix, l, id);
  }

  /** A row that opens no new group leaves the group ids as they were. */
  lemma SameGroupIds(prefix: seq<Row>, l: Row, cartoes: seq<Cartao>)
    requires l.entry.cartaoId.Some? && l.entry.cartaoId.value != "" ==>
             CardById(cartoes, l.entry.cartaoId.value).None? || l.entry.cartaoId.value in GroupIds(prefix, cartoes)
    ensures GroupIds(prefix + [l], cartoes) == GroupIds(prefix, cartoes)
  {
    GroupIdsSnoc(prefix, l, cartoes);
  }

  lemma NewGroupOrder(byId: map<string, CardGroup>, order: seq<string>, prefix: seq<Row>, l: Row, id: string,
                      g: CardGroup, cartoes: seq<Cartao>)
    requires OrderAgrees(byId, order, prefix, cartoes)
    requires l.entry.cartaoId == Some(id) && id != "" && id !in byId && CardById(cartoes, id).Some?
    ensures OrderAgrees(byId[id := g], order + [id], prefix + [l], cartoes)
  {
    GroupIdsSnoc(prefix, l, cartoes);
  }

  lemma NewGroup(byId: map<string, CardGroup>, order: seq<string>, prefix: seq<Row>, l: Row, id: string,
                 cartoes: seq<Cartao>, faturas: seq<Fatura>)
    requires OrderAgrees(byId, order, prefix, cartoes)
    requires GroupsAgree(byId, prefix, cartoes, faturas)
    requires l.entry.cartaoId == Some(id) && id != "" && id !in byId
    requires CardById(cartoes, id).Some?
    ensures GroupsAgree(byId[id := CardGroup(CardById(cartoes, id).value, l.entry.valor, PaidFlag(faturas, id))],
                        prefix + [l], cartoes, faturas)
  {
    var m := byId[id := CardGroup(CardById(cartoes, id).value, l.entry.valor, PaidFlag(faturas, id))];
    NewCardHasNoRows(prefix, cartoes, id);
    forall id' | id' in m
      ensures CardById(cartoes, id').Some?
              && m[id'] == CardGroup(CardById(cartoes, id').value, CardTotal(prefix + [l], id'), PaidFlag(faturas, id'))
    {
      if id' == id {
        CardTotalSnoc(prefix, l, id);
      } else {
        GroupAfterRow(byId[id'], prefix, l, id', cartoes, faturas);
      }
    }
  }

  lemma SkipRow(byId: map<string, CardGroup>, order: seq<string>, prefix: seq<Row>, l: Row,
                cartoes: seq<Cartao>, faturas: seq<Fatura>)
    requires OrderAgrees(byId, order, prefix, cartoes)
    requires GroupsAgree(byId, prefix, cartoes, faturas)
    requires l.entry.cartaoId.Some? && l.entry.cartaoId.value != "" ==>
             l.entry.cartaoId.value !in byId && CardById(cartoes, l.entry.cartaoId.value).None?
    ensures OrderAgrees(byId, order, prefix + [l], cartoes)
    ensures GroupsAgree(byId, prefix + [l], cartoes, faturas)
  {
    SameGroupIds(prefix, l, cartoes);
    forall id' | id' in byId
      ensures CardById(cartoes, id').Some?
              && byId[id'] == CardGroup(CardById(cartoes, id').value, CardTotal(prefix + [l], id'), PaidFlag(faturas, id'))
    {
      GroupAfterRow(byId[id'], prefix, l, id', cartoes, faturas);
    }
  }

  /** A known card without a group yet has had no rows. */
  lemma NewCardHasNoRows(prefix: seq<Row>, cartoes: seq<Cartao>, id: string)
    requires id != "" && CardById(cartoes, id).Some? && id !in GroupIds(prefix, cartoes)
    ensures CardTotal(prefix, id) == 0.0
  {
    forall x | x in prefix ensures x.entry.cartaoId != Some(id) {
      assert !CountsFor(x, cartoes, id);
    }
    CardTotalOfNone(prefix, id);
  }

  /** Each known card named by a card expense has exactly one group, and
      expenses without a card or with an unknown card make none. */
  lemma OneGroupPerKnownCard(cartaoLanc: seq<Row>, cartoes: seq<Cartao>, id: string)
    ensures var ids := GroupIds(cartaoLanc, cartoes);
      (exists i :: 0 <= i < |ids| && ids[i] == id)
      <==> id != "" && CardById(cartoes, id).Some? && exists x :: x in cartaoLanc && x.entry.cartaoId == Some(id)
  {
    var ids := GroupIds(cartaoLanc, cartoes);
    if id in ids {
      var x :| x in cartaoLanc && CountsFor(x, cartoes, id);
    }
    if id != "" && CardById(cartoes, id).Some? && exists x :: x in cartaoLanc && x.entry.cartaoId == Some(id) {
      var x :| x in cartaoLanc && x.entry.cartaoId == Some(id);
      assert CountsFor(x, cartoes, id);
    }
  }
}
