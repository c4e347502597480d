/** The transaction-entry modal of src/components/NovoLancamentoModal.tsx:
    form validation, the card-id rule, installment generation, the edit that
    propagates common fields to the later installments of a group, the group
    deletion, and the import of a parsed bank notification into the form.

    The `lancamentos` table is a class holding its rows; the backend's
    filtered update and delete are functions over the rows, and each write
    can fail, which the methods take as a parameter. */
module NovoLancamento {
  import opened Common
  import opened Calendar
  import opened IsoText
  import opened Records
  import NotificationParser

  /** The form state once its text inputs are parsed: `valor` is
      parseFloat of the amount field (None when it is NaN) and
      `totalParcelas` parseInt of the installments field. */
  datatype Form = Form(
    tipo: string,
    descricao: string,
    valor: Option<real>,
    data: Date,
    categoria: string,
    fixo: bool,
    metodo: string,
    cartaoId: string,
    totalParcelas: Option<int>,
    loja: string,
    receiptPath: string)

  datatype Rejection = NoCardSelected | InvalidAmount

  datatype SubmitOutcome = NotSignedIn | Rejected(reason: Rejection) | InvalidDate | WriteFailed | Saved

  datatype DeleteOutcome = NothingToDelete | DeleteFailed | Deleted

  /** The two checks of handleSubmit, in their order: a card entry needs a card,
      and the amount must be a number above zero. */
  function Validate(form: Form): (r: Option<Rejection>)
    ensures r == None <==>
      (form.metodo != "cartao" || form.cartaoId != "") && form.valor.Some? && form.valor.value > 0.0
    ensures r == Some(NoCardSelected) <==> form.metodo == "cartao" && form.cartaoId == ""
  {
    if form.metodo == "cartao" && form.cartaoId == "" then Some(NoCardSelected)
    else if form.valor.None? || form.valor.value <= 0.0 then Some(InvalidAmount)
    else None
  }

  /** `metodo === "cartao" ? cartaoId || null : null` */
  function CardIdFor(form: Form): (r: Option<string>)
    ensures r.Some? <==> form.metodo == "cartao" && form.cartaoId != ""
    ensures r.Some? ==> r.value == form.cartaoId
  {
    if form.metodo == "cartao" && form.cartaoId != "" then Some(form.cartaoId) else None
  }

  /** ` (i/n)`, the suffix of an installment's description. */
  function InstallmentSuffix(i: nat, n: nat): string {
    " (" + NatString(i) + "/" + NatString(n) + ")"
  }

  /** The installment dates as the source computes them: installment i is a
      fresh copy of the raw purchase date moved by `setMonth(getMonth() + i)`. */
  function InstallmentDatesAsWritten(base: Date, n: nat): (r: seq<Date>)
    requires ValidDate(base)
    ensures |r| == n && forall i :: 0 <= i < n ==> r[i] == SetMonthOffset(base, i)
  {
    seq(n, i requires 0 <= i < n => SetMonthOffset(base, i))
  }

  /** The installment dates one per calendar month: installment i is the
      purchase date advanced i months from the same base, clamped to the end of
      its month. */
  function InstallmentDates(base: Date, n: nat): (r: seq<Date>)
    requires ValidDate(base)
    ensures |r| == n
    ensures forall i :: 0 <= i < n ==>
      ValidDate(r[i]) && MonthIndex(r[i]) == MonthIndex(base) + i
      && r[i].day == Min(base.day, DaysInMonth(r[i].year, r[i].month))
  {
    seq(n, i requires 0 <= i < n => AddMonths(base, i))
  }

  /** On days every month has, both ways of dating installments agree. */
  lemma DatesAgreeOnEarlyDays(base: Date, n: nat)
    requires ValidDate(base) && base.day <= 28
    ensures InstallmentDatesAsWritten(base, n) == InstallmentDates(base, n)
  {
    var a := InstallmentDatesAsWritten(base, n);
    var b := InstallmentDates(base, n);
    forall i | 0 <= i < n ensures a[i] == b[i] {
      MonthIndexDetermines(a[i], b[i]);
    }
  }

  /** The source's dates skip a month: a January 31 purchase in three
      installments is dated January 31, March 3 and March 31, two of them in
      March and none in February. */
  lemma AsWrittenSkipsFebruary()
    ensures InstallmentDatesAsWritten(Date(2026, 1, 31), 3)
      == [Date(2026, 1, 31), Date(2026, 3, 3), Date(2026, 3, 31)]
    ensures InstallmentDates(Date(2026, 1, 31), 3)
      == [Date(2026, 1, 31), Date(2026, 2, 28), Date(2026, 3, 31)]
  {
    var a := InstallmentDatesAsWritten(Date(2026, 1, 31), 3);
    assert a[1] == Date(2026, 3, 3);
    assert a[2] == Date(2026, 3, 31);
    var b := InstallmentDates(Date(2026, 1, 31), 3);
    assert b[1] == Date(2026, 2, 28);
    assert b[2] == Date(2026, 3, 31);
  }

  /** Two different installments never fall in the same calendar month. */
  lemma OneInstallmentPerMonth(base: Date, n: nat, i: nat, j: nat)
    requires ValidDate(base) && i < j < n
    ensures var d := InstallmentDates(base, n);
      d[i].year != d[j].year || d[i].month != d[j].month
  {
  }

  /** The rows handleSubmit inserts for a card purchase in `n` installments
      (`+(valorNum / parcelas).toFixed(2)` each), given their dates. */
  function InstallmentEntries(form: Form, userId: string, grupoId: string, amount: real, dates: seq<Date>): (r: seq<Entry>)
    requires |dates| >= 1
    ensures |r| == |dates|
    ensures forall i :: 0 <= i < |r| ==>
      && r[i].parcelaGrupoId == Some(grupoId)
      && r[i].parcelaAtual == Some(i + 1)
      && r[i].totalParcelas == Some(|dates|)
      && r[i].fixo == false && r[i].metodo == "cartao"
      && r[i].descricao == form.descricao + InstallmentSuffix(i + 1, |dates|)
      && r[i].valor == ToFixed2(amount / |dates| as real)
      && r[i].data == dates[i]
      && r[i].cartaoId == (if form.cartaoId == "" then None else Some(form.cartaoId))
      && r[i].userId == userId && r[i].tipo == form.tipo
      && r[i].categoria == form.categoria && r[i].loja == Some(form.loja)
      && r[i].comprovanteUrl == None
  {
    var n := |dates|;
    seq(n, i requires 0 <= i < n =>
      Entry(userId, form.tipo, form.descricao + InstallmentSuffix(i + 1, n),
            ToFixed2(amount / n as real), dates[i], form.categoria, false, "cartao",
            if form.cartaoId == "" then None else Some(form.cartaoId), Some(form.loja),
            Some(i + 1), Some(n), Some(grupoId), None))
  }

  /** Each of the indices 1..n appears on exactly one installment. */
  lemma InstallmentIndicesExact(form: Form, userId: string, grupoId: string, amount: real, dates: seq<Date>)
    requires |dates| >= 1
    ensures var r := InstallmentEntries(form, userId, grupoId, amount, dates);
      && (forall k :: 1 <= k <= |dates| ==> exists i :: 0 <= i < |r| && r[i].parcelaAtual == Some(k))
      && (forall i, j :: 0 <= i < |r| && 0 <= j < |r| && r[i].parcelaAtual == r[j].parcelaAtual ==> i == j)
  {
    var r := InstallmentEntries(form, userId, grupoId, amount, dates);
    forall k | 1 <= k <= |dates| ensures exists i :: 0 <= i < |r| && r[i].parcelaAtual == Some(k) {
      assert r[k - 1].parcelaAtual == Some(k);
    }
  }

  lemma {:induction false} SumOfEqualAmounts(entries: seq<Entry>, p: real)
    requires forall i :: 0 <= i < |entries| ==> entries[i].valor == p
    ensures SumEntries(entries) == |entries| as real * p
  {
    if entries != [] {
      SumOfEqualAmounts(entries[..|entries| - 1], p);
    }
  }

  /** Rounding each installment to cents moves the total by at most half a
      cent per installment; no remainder is redistributed. */
  lemma InstallmentTotalBound(form: Form, userId: string, grupoId: string, amount: real, dates: seq<Date>)
    requires |dates| >= 1
    ensures var r := InstallmentEntries(form, userId, grupoId, amount, dates);
      var n := |dates| as real;
      && (forall i :: 0 <= i < |r| ==> amount / n - 0.005 <= r[i].valor <= amount / n + 0.005)
      && amount - n * 0.005 <= SumEntries(r) <= amount + n * 0.005
  {
    var r := InstallmentEntries(form, userId, grupoId, amount, dates);
    EqualAmountsBound(r, amount, ToFixed2(amount / |dates| as real));
  }

  lemma EqualAmountsBound(entries: seq<Entry>, a: real, p: real)
    requires |entries| >= 1
    requires a / |entries| as real - 0.005 <= p <= a / |entries| as real + 0.005
    requires forall i :: 0 <= i < |entries| ==> entries[i].valor == p
    ensures a - |entries| as real * 0.005 <= SumEntries(entries) <= a + |entries| as real * 0.005
  {
    SumOfEqualAmounts(entries, p);
    ScaledBound(a, |entries| as real, p);
  }

  lemma ScaledBound(a: real, n: real, p: real)
    requires n > 0.0 && a / n - 0.005 <= p <= a / n + 0.005
    ensures a - n * 0.005 <= n * p <= a + n * 0.005
  {
    var d := p - a / n;
    assert n * (a / n) == a;
    assert n * p == a + n * d;
    assert -0.005 <= d <= 0.005;
    assert n * d <= n * 0.005 && -(n * 0.005) <= n * d;
  }

  /** The columns the edit writes to the edited row itself. */
  function EditedEntry(e: Entry, form: Form, valor: real): (r: Entry)
    ensures r.cartaoId == CardIdFor(form)
    ensures r.totalParcelas == (if form.metodo == "cartao" then form.totalParcelas else None)
    ensures r.comprovanteUrl == (if form.receiptPath == "" then None else Some(form.receiptPath))
    ensures r.userId == e.userId && r.parcelaAtual == e.parcelaAtual && r.parcelaGrupoId == e.parcelaGrupoId
  {
    e.(tipo := form.tipo, descricao := form.descricao, valor := valor, data := form.data,
       categoria := form.categoria, fixo := form.fixo, metodo := form.metodo,
       cartaoId := CardIdFor(form),
       totalParcelas := if form.metodo == "cartao" then form.totalParcelas else None,
       loja := Some(form.loja),
       comprovanteUrl := if form.receiptPath == "" then None else Some(form.receiptPath))
  }

  /** `update(...).eq("id", id)` */
  function UpdateById(rows: seq<Row>, id: nat, form: Form, valor: real): (r: seq<Row>)
    ensures |r| == |rows|
    ensures forall i :: 0 <= i < |rows| ==> r[i].id == rows[i].id
    ensures forall i :: 0 <= i < |rows| && rows[i].id != id ==> r[i] == rows[i]
    ensures forall i :: 0 <= i < |rows| && rows[i].id == id ==> r[i].entry == EditedEntry(rows[i].entry, form, valor)
  {
    seq(|rows|, i requires 0 <= i < |rows| =>
      if rows[i].id == id then Row(id, EditedEntry(rows[i].entry, form, valor)) else rows[i])
  }

  /** The row is a later installment of group `g` than installment `k`
      (`.eq("parcela_grupo_id", g).gt("parcela_atual", k)`; a null
      parcela_atual never compares). */
  predicate IsLaterInstallment(row: Row, g: string, k: int) {
    row.entry.parcelaGrupoId == Some(g) && row.entry.parcelaAtual.Some? && row.entry.parcelaAtual.value > k
  }

  /** The row is installment `k` of group `g` or a later one (`.gte`). */
  predicate IsInstallmentFrom(row: Row, g: string, k: int) {
    row.entry.parcelaGrupoId == Some(g) && row.entry.parcelaAtual.Some? && row.entry.parcelaAtual.value >= k
  }

  /** Every column other than categoria, loja, cartao_id, metodo and fixo. */
  predicate SameOtherColumns(a: Entry, b: Entry) {
    && a.userId == b.userId && a.tipo == b.tipo && a.descricao == b.descricao
    && a.valor == b.valor && a.data == b.data && a.parcelaAtual == b.parcelaAtual
    && a.totalParcelas == b.totalParcelas && a.parcelaGrupoId == b.parcelaGrupoId
    && a.comprovanteUrl == b.comprovanteUrl
  }

  /** The propagation of an edit to the later installments of its group. */
  function PropagateToLater(rows: seq<Row>, g: string, k: int, form: Form): (r: seq<Row>)
    ensures |r| == |rows|
    ensures forall i :: 0 <= i < |rows| ==> r[i].id == rows[i].id
    ensures forall i :: 0 <= i < |rows| && !IsLaterInstallment(rows[i], g, k) ==> r[i] == rows[i]
    ensures forall i :: 0 <= i < |rows| && IsLaterInstallment(rows[i], g, k) ==>
      && r[i].entry.categoria == form.categoria && r[i].entry.loja == Some(form.loja)
      && r[i].entry.cartaoId == CardIdFor(form) && r[i].entry.metodo == form.metodo
      && r[i].entry.fixo == form.fixo
      && SameOtherColumns(r[i].entry, rows[i].entry)
  {
    seq(|rows|, i requires 0 <= i < |rows| =>
      if IsLaterInstallment(rows[i], g, k) then
        Row(rows[i].id, rows[i].entry.(categoria := form.categoria, loja := Some(form.loja),
                                       cartaoId := CardIdFor(form), metodo := form.metodo, fixo := form.fixo))
      else rows[i])
  }

  /** `delete().eq("parcela_grupo_id", g).gte("parcela_atual", k)` */
  function DeleteFrom(rows: seq<Row>, g: string, k: int): (r: seq<Row>)
    ensures forall x :: x in r <==> x in rows && !IsInstallmentFrom(x, g, k)
  {
    Filter(rows, (x: Row) => !IsInstallmentFrom(x, g, k))
  }

  /** `delete().eq("id", id)` */
  function DeleteById(rows: seq<Row>, id: nat): (r: seq<Row>)
    ensures forall x :: x in r <==> x in rows && x.id != id
  {
    Filter(rows, (x: Row) => x.id != id)
  }

  /** Deleting from installment k keeps every earlier installment of the group
      and every row of other groups, and removes the edited one. */
  lemma DeleteKeepsEarlier(rows: seq<Row>, g: string, k: int, x: Row)
    requires x in rows
    ensures x.entry.parcelaGrupoId != Some(g) ==> x in DeleteFrom(rows, g, k)
    ensures x.entry.parcelaAtual.Some? && x.entry.parcelaAtual.value < k ==> x in DeleteFrom(rows, g, k)
    ensures x.entry.parcelaGrupoId == Some(g) && x.entry.parcelaAtual == Some(k) ==> x !in DeleteFrom(rows, g, k)
  {
  }

  /** `editItem.parcela_grupo_id && editItem.parcela_atual`: the group and index
      of a grouped installment (empty ids and index 0 are falsy). */
  function GroupOf(item: Row): (r: Option<(string, int)>)
    ensures r.Some? <==> item.entry.parcelaGrupoId.Some? && item.entry.parcelaGrupoId.value != ""
                         && item.entry.parcelaAtual.Some? && item.entry.parcelaAtual.value != 0
    ensures r.Some? ==> Some(r.value.0) == item.entry.parcelaGrupoId && Some(r.value.1) == item.entry.parcelaAtual
  {
    match (item.entry.parcelaGrupoId, item.entry.parcelaAtual)
    case (Some(g), Some(k)) => if g != "" && k != 0 then Some((g, k)) else None
    case _ => None
  }

  /** Row ids handed out from `start` to a batch of inserted entries. */
  function Stamp(entries: seq<Entry>, start: nat): (r: seq<Row>)
    ensures |r| == |entries|
    ensures forall i :: 0 <= i < |r| ==> r[i] == Row(start + i, entries[i])
  {
    seq(|entries|, i requires 0 <= i < |entries| => Row(start + i, entries[i]))
  }

  /** The single row inserted for an entry that is not split into installments. */
  function SingleEntry(form: Form, userId: string, valor: real): (r: Entry)
    ensures r.cartaoId == CardIdFor(form) && r.valor == valor
    ensures r.parcelaAtual == None && r.parcelaGrupoId == None && r.totalParcelas == None
  {
    Entry(userId, form.tipo, form.descricao, valor, form.data, form.categoria, form.fixo,
          form.metodo, CardIdFor(form), Some(form.loja), None, None, None,
          if form.receiptPath == "" then None else Some(form.receiptPath))
  }

  /** handleImportNotif: each field the parser found replaces the form's. */
  function ImportNotification(form: Form, parsed: NotificationParser.Parsed): (r: Form)
    ensures parsed == NotificationParser.Parsed(None, None, None) ==> r == form
    ensures r.valor == (if parsed.valor.Some? && parsed.valor.value != 0.0 then parsed.valor else form.valor)
    ensures r.loja == (if parsed.loja.Some? && parsed.loja.value != "" then parsed.loja.value else form.loja)
    ensures r.descricao == (if parsed.descricao.Some? && parsed.descricao.value != "" then parsed.descricao.value else form.descricao)
    ensures r.(valor := form.valor, loja := form.loja, descricao := form.descricao) == form
  {
    var f1 := if parsed.valor.Some? && parsed.valor.value != 0.0 then form.(valor := parsed.valor) else form;
    var f2 := if parsed.loja.Some? && parsed.loja.value != "" then f1.(loja := parsed.loja.value) else f1;
    if parsed.descricao.Some? && parsed.descricao.value != "" then f2.(descricao := parsed.descricao.value) else f2
  }

  /** The `lancamentos` table. */
  class LancamentoTable {
    var rows: seq<Row>
    var nextId: nat

    ghost predicate Valid()
      reads this
    {
      && (forall i :: 0 <= i < |rows| ==> rows[i].id < nextId)
      && DistinctIds(rows)
    }

    constructor ()
      ensures Valid() && rows == []
    {
      rows := [];
      nextId := 0;
    }

    /** A batch insert; the backend hands out fresh ids. */
    method Insert(entries: seq<Entry>)
      requires Valid()
      modifies this
      ensures Valid()
      ensures rows == old(rows) + Stamp(entries, old(nextId))
      ensures nextId == old(nextId) + |entries|
    {
      rows := rows + Stamp(entries, nextId);
      nextId := nextId + |entries|;
    }

    /** handleSubmit. `user` is the signed-in user's id, `editItem` the row
        being edited, `grupoId` the fresh group id (crypto.randomUUID), and
        `firstWriteOk`/`secondWriteOk` whether the backend accepts the first
        and the second request. */
    method Submit(user: Option<string>, form: Form, editItem: Option<Row>, grupoId: string,
                  firstWriteOk: bool, secondWriteOk: bool) returns (outcome: SubmitOutcome)
      requires Valid()
      modifies this
      ensures Valid()
      ensures user.None? ==> outcome == NotSignedIn && rows == old(rows)
      ensures user.Some? && Validate(form).Some? ==>
        outcome == Rejected(Validate(form).value) && rows == old(rows)
      ensures user.Some? && Validate(form).None? && !firstWriteOk ==>
        outcome in {WriteFailed, InvalidDate} && rows == old(rows)
      ensures user.Some? && Validate(form).None? && editItem.Some? && firstWriteOk ==>
        var edited := UpdateById(old(rows), editItem.value.id, form, form.valor.value);
        match GroupOf(editItem.value)
        case None => rows == edited && outcome == Saved
        case Some(gk) =>
          if secondWriteOk then rows == PropagateToLater(edited, gk.0, gk.1, form) && outcome == Saved
          else rows == edited && outcome == WriteFailed
      ensures user.Some? && Validate(form).None? && editItem.None?
              && form.metodo == "cartao" && form.totalParcelas.Some? && form.totalParcelas.value > 1 ==>
        if !ValidDate(form.data) then rows == old(rows) && outcome == InvalidDate
        else if !firstWriteOk then rows == old(rows) && outcome == WriteFailed
        else outcome == Saved && nextId == old(nextId) + form.totalParcelas.value && rows == old(rows) + Stamp(
          InstallmentEntries(form, user.value, grupoId, form.valor.value,
                             InstallmentDatesAsWritten(form.data, form.totalParcelas.value)), old(nextId))
      ensures user.Some? && Validate(form).None? && editItem.None?
              && !(form.metodo == "cartao" && form.totalParcelas.Some? && form.totalParcelas.value > 1) ==>
        if firstWriteOk then outcome == Saved && rows == old(rows) + [Row(old(nextId), SingleEntry(form, user.value, form.valor.value))]
                             && nextId == old(nextId) + 1
        else outcome == WriteFailed && rows == old(rows)
      ensures outcome != Saved || editItem.Some? ==> nextId == old(nextId)
    {
      if user.None? {
        return NotSignedIn;
      }
      var rejection := Validate(form);
      if rejection.Some? {
        return Rejected(rejection.value);
      }
      var valor := form.valor.value;
      if editItem.Some? {
        if !firstWriteOk {
          return WriteFailed;
        }
        rows := UpdateById(rows, editItem.value.id, form, valor);
        var group := GroupOf(editItem.value);
        if group.Some? {
          if !secondWriteOk {
            return WriteFailed;
          }
          rows := PropagateToLater(rows, group.value.0, group.value.1, form);
        }
        outcome := Saved;
      } else if form.metodo == "cartao" && form.totalParcelas.Some? && form.totalParcelas.value > 1 {
        if !ValidDate(form.data) {
          return InvalidDate;
        }
        if !firstWriteOk {
          return WriteFailed;
        }
        var n := form.totalParcelas.value;
        Insert(InstallmentEntries(form, user.value, grupoId, valor, InstallmentDatesAsWritten(form.data, n)));
        outcome := Saved;
      } else {
        if !firstWriteOk {
          return WriteFailed;
        }
        Insert([SingleEntry(form, user.value, valor)]);
        outcome := Saved;
      }
    }

    /** handleDelete: a grouped installment takes the later ones of its group
        with it; any other row is deleted by id. */
    method Delete(editItem: Option<Row>, writeOk: bool) returns (outcome: DeleteOutcome)
      requires Valid()
      modifies this
      ensures Valid()
      ensures nextId == old(nextId)
      ensures editItem.None? ==> outcome == NothingToDelete && rows == old(rows)
      ensures editItem.Some? && !writeOk ==> outcome == DeleteFailed && rows == old(rows)
      ensures editItem.Some? && writeOk ==> outcome == Deleted
      ensures editItem.Some? && writeOk && GroupOf(editItem.value).Some? ==>
        rows == DeleteFrom(old(rows), GroupOf(editItem.value).value.0, GroupOf(editItem.value).value.1)
      ensures editItem.Some? && writeOk && GroupOf(editItem.value).None? ==>
        rows == DeleteById(old(rows), editItem.value.id)
    {
      if editItem.None? {
        return NothingToDelete;
      }
      if !writeOk {
        return DeleteFailed;
      }
      var group := GroupOf(editItem.value);
      var before := rows;
      if group.Some? {
        FilterDistinct(rows, (x: Row) => !IsInstallmentFrom(x, group.value.0, group.value.1));
        rows := DeleteFrom(rows, group.value.0, group.value.1);
      } else {
        FilterDistinct(rows, (x: Row) => x.id != editItem.value.id);
        rows := DeleteById(rows, editItem.value.id);
      }
      forall i | 0 <= i < |rows| ensures rows[i].id < nextId {
        assert rows[i] in before;
      }
      outcome := Deleted;
    }
  }
}
