/** The goals page of src/pages/Objetivos.tsx: the global goals of the user
    (one per tipo, "investimento" and "reserva"), the goal lists ("obra" and
    "lazer"), the upsert of a global goal, a goal card's progress and the
    monthly amount still needed, and the add form of a list section. */
module Objetivos {
  import opened Common
  import opened Calendar

  /** An `objetivos_globais` row; the id stands for the backend's uuid. */
  datatype GlobalGoal = GlobalGoal(
    id: nat, userId: string, tipo: string,
    valorAtual: real, valorMeta: real, dataLimite: Option<Date>)

  /** An `objetivos_lista` row. */
  datatype ListItem = ListItem(
    id: nat, userId: string, tipo: string, nome: string,
    dataPrevista: Option<string>, valorPrevisto: real)

  /** What `upsertGlobal` is called with. A `dataLimite` of None is the
      `undefined` the card sends for an empty date field. */
  datatype GoalParams = GoalParams(tipo: string, valorAtual: real, valorMeta: real, dataLimite: Option<Date>)

  // ---------------------------------------------------------------------
  // Selections

  function HasTipo(tipo: string): GlobalGoal -> bool {
    (g: GlobalGoal) => g.tipo == tipo
  }

  /** `globais.find((g) => g.tipo === tipo)` */
  function GoalOf(globais: seq<GlobalGoal>, tipo: string): (r: Option<GlobalGoal>)
    ensures r.None? <==> forall i :: 0 <= i < |globais| ==> globais[i].tipo != tipo
    ensures r.Some? ==> exists i :: 0 <= i < |globais| && globais[i] == r.value && r.value.tipo == tipo
                                    && forall j :: 0 <= j < i ==> globais[j].tipo != tipo
  {
    var r := Find(globais, HasTipo(tipo));
    assert forall i :: 0 <= i < |globais| ==> (HasTipo(tipo)(globais[i]) <==> globais[i].tipo == tipo);
    r
  }

  /** `lista.filter((l) => l.tipo === tipo)` */
  function ItemsOf(lista: seq<ListItem>, tipo: string): (r: seq<ListItem>)
    ensures forall x :: x in r <==> x in lista && x.tipo == tipo
    ensures |r| <= |lista|
  {
    if lista == [] then []
    else
      var init := lista[..|lista| - 1];
      var last := lista[|lista| - 1];
      assert lista == init + [last];
      ItemsOf(init, tipo) + (if last.tipo == tipo then [last] else [])
  }

  /** The filter keeps the list's order: filtering a concatenation
      concatenates the filtered parts. */
  lemma {:induction false} ItemsOfAppend(a: seq<ListItem>, b: seq<ListItem>, tipo: string)
    ensures ItemsOf(a + b, tipo) == ItemsOf(a, tipo) + ItemsOf(b, tipo)
  {
    if b == [] {
      assert a + b == a;
    } else {
      assert (a + b)[..|a + b| - 1] == a + b[..|b| - 1];
      ItemsOfAppend(a, b[..|b| - 1], tipo);
    }
  }

  /** Items of the tipo are all kept, in order. */
  lemma {:induction false} ItemsOfAllMatching(lista: seq<ListItem>, tipo: string)
    requires forall i :: 0 <= i < |lista| ==> lista[i].tipo == tipo
    ensures ItemsOf(lista, tipo) == lista
  {
    if lista != [] {
      var init := lista[..|lista| - 1];
      var last := lista[|lista| - 1];
      assert ItemsOf(init, tipo) == init by {
        forall i | 0 <= i < |init| ensures init[i].tipo == tipo {
          assert init[i] == lista[i];
        }
        ItemsOfAllMatching(init, tipo);
      }
      assert ItemsOf(lista, tipo) == ItemsOf(init, tipo) + [last] by {
        assert last.tipo == tipo;
      }
      assert lista == init + [last];
    }
  }

  /** The page's four selections. */
  datatype Selection = Selection(
    investimento: Option<GlobalGoal>, reserva: Option<GlobalGoal>,
    obras: seq<ListItem>, lazer: seq<ListItem>)

  function Select(globais: seq<GlobalGoal>, lista: seq<ListItem>): (s: Selection)
    ensures s.investimento == GoalOf(globais, "investimento") && s.reserva == GoalOf(globais, "reserva")
    ensures s.obras == ItemsOf(lista, "obra") && s.lazer == ItemsOf(lista, "lazer")
    ensures forall x :: x in s.obras ==> x !in s.lazer
  {
    Selection(GoalOf(globais, "investimento"), GoalOf(globais, "reserva"),
              ItemsOf(lista, "obra"), ItemsOf(lista, "lazer"))
  }

  // ---------------------------------------------------------------------
  // upsertGlobal

  /** `update(params)`: the values are written, and a date left undefined
      keeps the one stored (an undefined field is not sent). */
  function Updated(g: GlobalGoal, p: GoalParams): GlobalGoal {
    g.(tipo := p.tipo, valorAtual := p.valorAtual, valorMeta := p.valorMeta,
       dataLimite := if p.dataLimite.Some? then p.dataLimite else g.dataLimite)
  }

  /** The user's rows after `upsertGlobal` succeeds: the first row of the
      tipo, if any, is updated by id; otherwise a row with the user's id is
      inserted under `newId`. */
  function Upserted(rows: seq<GlobalGoal>, userId: string, newId: nat, p: GoalParams): (r: seq<GlobalGoal>)
  {
    match GoalOf(rows, p.tipo)
    case Some(existing) =>
      seq(|rows|, i requires 0 <= i < |rows| => if rows[i].id == existing.id then Updated(rows[i], p) else rows[i])
    case None =>
      rows + [GlobalGoal(newId, userId, p.tipo, p.valorAtual, p.valorMeta, p.dataLimite)]
  }

  predicate DistinctGoalIds(rows: seq<GlobalGoal>) {
    forall i, j :: 0 <= i < j < |rows| ==> rows[i].id != rows[j].id
  }

  /** Row `k` is the first row of the tipo. */
  predicate FirstOfTipoAt(rows: seq<GlobalGoal>, tipo: string, k: int) {
    0 <= k < |rows| && rows[k].tipo == tipo && forall j :: 0 <= j < k ==> rows[j].tipo != tipo
  }

  /** `r` is `rows` with only row `k` changed, by the update of `p`. */
  predicate OnlyChangedAt(rows: seq<GlobalGoal>, r: seq<GlobalGoal>, k: int, p: GoalParams) {
    |r| == |rows| && 0 <= k < |rows| && r[k] == Updated(rows[k], p)
    && forall j :: 0 <= j < |rows| && j != k ==> r[j] == rows[j]
  }

  /** With a row of the tipo, exactly the first such row changes, to the new
      values; every other row stays as it was. */
  lemma UpsertUpdatesFirst(rows: seq<GlobalGoal>, userId: string, newId: nat, p: GoalParams)
    requires DistinctGoalIds(rows)
    requires GoalOf(rows, p.tipo).Some?
    ensures exists k :: FirstOfTipoAt(rows, p.tipo, k) && OnlyChangedAt(rows, Upserted(rows, userId, newId, p), k, p)
  {
    var e := GoalOf(rows, p.tipo).value;
    var k :| 0 <= k < |rows| && rows[k] == e && e.tipo == p.tipo && forall j :: 0 <= j < k ==> rows[j].tipo != p.tipo;
    var r := Upserted(rows, userId, newId, p);
    forall j | 0 <= j < |rows| && j != k ensures r[j] == rows[j] {
      assert rows[j].id != rows[k].id;
    }
    assert FirstOfTipoAt(rows, p.tipo, k) && OnlyChangedAt(rows, r, k, p);
  }

  /** Without a row of the tipo, one row is appended with the user's id and
      the new values, the date null when undefined. */
  lemma UpsertInsertsNew(rows: seq<GlobalGoal>, userId: string, newId: nat, p: GoalParams)
    requires GoalOf(rows, p.tipo).None?
    ensures Upserted(rows, userId, newId, p)
            == rows + [GlobalGoal(newId, userId, p.tipo, p.valorAtual, p.valorMeta, p.dataLimite)]
  {
  }

  /** After the upsert the card of the tipo shows the new values. */
  lemma UpsertThenSelect(rows: seq<GlobalGoal>, userId: string, newId: nat, p: GoalParams)
    requires DistinctGoalIds(rows)
    ensures var g := GoalOf(Upserted(rows, userId, newId, p), p.tipo);
      g.Some? && g.value.valorAtual == p.valorAtual && g.value.valorMeta == p.valorMeta
      && (p.dataLimite.Some? ==> g.value.dataLimite == p.dataLimite)
  {
    var r := Upserted(rows, userId, newId, p);
    if GoalOf(rows, p.tipo).Some? {
      UpsertUpdatesFirst(rows, userId, newId, p);
      var k :| FirstOfTipoAt(rows, p.tipo, k) && OnlyChangedAt(rows, r, k, p);
      FirstOfTipo(r, p.tipo, k);
    } else {
      FirstOfTipo(r, p.tipo, |rows|);
    }
  }

  lemma FirstOfTipo(rows: seq<GlobalGoal>, tipo: string, k: nat)
    requires k < |rows| && rows[k].tipo == tipo && forall j :: 0 <= j < k ==> rows[j].tipo != tipo
    ensures GoalOf(rows, tipo) == Some(rows[k])
  {
    var g := GoalOf(rows, tipo);
    var i :| 0 <= i < |rows| && rows[i] == g.value && g.value.tipo == tipo
             && forall j :: 0 <= j < i ==> rows[j].tipo != tipo;
    assert !(i < k) && !(k < i);
  }

  /** Upserting the same values twice leaves what upserting once does. */
  lemma UpsertIdempotent(rows: seq<GlobalGoal>, userId: string, newId: nat, newId2: nat, p: GoalParams)
    requires DistinctGoalIds(rows)
    requires forall i :: 0 <= i < |rows| ==> rows[i].id != newId
    ensures Upserted(Upserted(rows, userId, newId, p), userId, newId2, p) == Upserted(rows, userId, newId, p)
  {
    var r := Upserted(rows, userId, newId, p);
    var r2 := Upserted(r, userId, newId2, p);
    if GoalOf(rows, p.tipo).Some? {
      UpsertUpdatesFirst(rows, userId, newId, p);
      var k :| FirstOfTipoAt(rows, p.tipo, k) && OnlyChangedAt(rows, r, k, p);
      assert GoalOf(r, p.tipo) == Some(r[k]) by { FirstOfTipo(r, p.tipo, k); }
      assert forall j :: 0 <= j < |r| ==> (r[j].id == r[k].id <==> j == k) by {
        assert forall j :: 0 <= j < |r| ==> r[j].id == rows[j].id;
      }
      assert r2 == r;
    } else {
      assert GoalOf(r, p.tipo) == Some(r[|rows|]) by { FirstOfTipo(r, p.tipo, |rows|); }
      assert forall j :: 0 <= j < |r| ==> (r[j].id == newId <==> j == |rows|);
      assert r2 == r;
    }
  }

  /** The user's `objetivos_globais` rows, as the page reads them. */
  class GoalTable {
    var rows: seq<GlobalGoal>
    var nextId: nat

    ghost predicate Valid()
      reads this
    {
      DistinctGoalIds(rows) && forall i :: 0 <= i < |rows| ==> rows[i].id < nextId
    }

    constructor ()
      ensures Valid() && rows == []
    {
      rows := [];
      nextId := 0;
    }

    /** `upsertGlobal.mutate(params)`; `writeOk` is whether the backend
        accepts the request. A refused request throws and changes nothing. */
    method UpsertGlobal(userId: string, p: GoalParams, writeOk: bool) returns (saved: bool)
      requires Valid()
      modifies this
      ensures Valid()
      ensures saved == writeOk
      ensures saved ==> rows == Upserted(old(rows), userId, old(nextId), p)
      ensures !saved ==> rows == old(rows)
    {
      if !writeOk {
        return false;
      }
      var existing := GoalOf(rows, p.tipo);
      var newRows := Upserted(rows, userId, nextId, p);
      if existing.Some? {
        assert |newRows| == |rows|;
        assert forall i :: 0 <= i < |rows| ==> newRows[i].id == rows[i].id;
      } else {
        assert newRows == rows + [GlobalGoal(nextId, userId, p.tipo, p.valorAtual, p.valorMeta, p.dataLimite)];
        nextId := nextId + 1;
      }
      rows := newRows;
      saved := true;
    }
  }

  // ---------------------------------------------------------------------
  // GoalCard

  /** `pct`: the progress towards the goal as a whole percentage, capped at
      100, and 0 without a goal or with a goal of 0 or less. */
  function Pct(data: Option<GlobalGoal>): (r: int)
    ensures data.None? || data.value.valorMeta <= 0.0 ==> r == 0
    ensures r <= 100
    ensures data.Some? && data.value.valorMeta > 0.0 && data.value.valorAtual >= 0.0 ==> r >= 0
    ensures data.Some? && data.value.valorMeta > 0.0 && data.value.valorAtual >= data.value.valorMeta ==> r == 100
    ensures data.Some? && data.value.valorMeta > 0.0 && r < 100 ==> data.value.valorAtual < data.value.valorMeta
    ensures data.Some? && data.value.valorMeta > 0.0 ==>
      var p := data.value.valorAtual / data.value.valorMeta * 100.0;
      (r < 100 ==> r as real - 0.5 <= p < r as real + 0.5) && (r == 100 ==> p >= 99.5)
  {
    if data.Some? && data.value.valorMeta > 0.0 then
      var q := data.value.valorAtual / data.value.valorMeta;
      assert data.value.valorAtual >= data.value.valorMeta ==> q >= 1.0;
      assert data.value.valorAtual >= 0.0 ==> q >= 0.0;
      Min(100, MathRound(q * 100.0))
    else 0
  }

  /** The number of calendar months from `now` to `end`. */
  function MonthDiff(end: Date, now: Date): (r: int)
    ensures r == MonthIndex(end) - MonthIndex(now)
  {
    (end.year - now.year) * 12 + (end.month - now.month)
  }

  /** `mesesRestantes`: what still has to be saved per month to reach the
      goal by its deadline, in cents; null without a deadline, with a goal
      of 0, or when the deadline's month is not after the current one; 0 once
      the goal is reached. `now` is the current date. */
  function MesesRestantes(data: Option<GlobalGoal>, now: Date): (r: Option<real>)
    ensures data.None? || data.value.dataLimite.None? || data.value.valorMeta == 0.0 ==> r.None?
    ensures data.Some? && data.value.dataLimite.Some? && data.value.valorMeta != 0.0 ==>
      (r.None? <==> MonthDiff(data.value.dataLimite.value, now) <= 0)
    ensures r.Some? ==> data.Some? && data.value.dataLimite.Some?
    ensures r.Some? && data.value.valorMeta <= data.value.valorAtual ==> r.value == 0.0
    ensures r.Some? && data.value.valorMeta > data.value.valorAtual ==>
      var falta := data.value.valorMeta - data.value.valorAtual;
      var diff := MonthDiff(data.value.dataLimite.value, now) as real;
      r.value >= 0.0 && falta / diff - 0.005 <= r.value <= falta / diff + 0.005
    ensures r.Some? ==> (r.value * 100.0).Floor as real == r.value * 100.0
  {
    if data.None? || data.value.dataLimite.None? || data.value.valorMeta == 0.0 then None
    else
      var diff := MonthDiff(data.value.dataLimite.value, now);
      if diff <= 0 then None
      else
        var falta := data.value.valorMeta - data.value.valorAtual;
        if falta > 0.0 then Some(ToFixed2(falta / diff as real)) else Some(0.0)
  }

  /** Saving the computed amount every month covers what is missing, up to
      half a cent a month. */
  lemma MonthlyAmountCoversGoal(data: Option<GlobalGoal>, now: Date)
    requires MesesRestantes(data, now).Some?
    requires data.value.valorMeta > data.value.valorAtual
    ensures var diff := MonthDiff(data.value.dataLimite.value, now) as real;
      var falta := data.value.valorMeta - data.value.valorAtual;
      MesesRestantes(data, now).value * diff >= falta - 0.005 * diff
  {
    var diff := MonthDiff(data.value.dataLimite.value, now) as real;
    var falta := data.value.valorMeta - data.value.valorAtual;
    var r := MesesRestantes(data, now).value;
    var q := falta / diff;
    assert diff > 0.0;
    assert r - (q - 0.005) >= 0.0;
    MulNonNegative(r - (q - 0.005), diff);
    assert q * diff == falta;
    assert r * diff - q * diff + 0.005 * diff >= 0.0;
  }

  lemma MulNonNegative(a: real, b: real)
    requires a >= 0.0 && b >= 0.0
    ensures a * b >= 0.0
  {
  }

  // ---------------------------------------------------------------------
  // ListSection

  /** What `onAdd` receives. */
  datatype NewItem = NewItem(nome: string, dataPrevista: Option<string>, valorPrevisto: real)

  /** `s || undefined`: an empty field is not sent. */
  function NonEmpty(s: string): (r: Option<string>)
    ensures r.None? <==> s == ""
    ensures r.Some? ==> r.value == s
  {
    if s == "" then None else Some(s)
  }

  /** `n || 0` for a number `n`: NaN, which is None here, becomes 0. */
  function NumberOrZero(n: Option<real>): (r: real)
    ensures n.None? ==> r == 0.0
    ensures n.Some? ==> r == n.value
  {
    if n.Some? then n.value else 0.0
  }

  /** The add form of a list section. */
  class ListForm {
    var adding: bool
    var nome: string
    var dataPrev: string
    var valorPrev: string

    constructor ()
      ensures !adding && nome == "" && dataPrev == "" && valorPrev == ""
    {
      adding := false;
      nome := "";
      dataPrev := "";
      valorPrev := "";
    }

    /** `handleAdd`. `valorNumber` is `+valorPrev`, None when it is NaN. */
    method HandleAdd(valorNumber: Option<real>) returns (added: Option<NewItem>)
      modifies this
      ensures old(nome) == "" ==> added.None? && unchanged(this)
      ensures old(nome) != "" ==> !adding && nome == "" && dataPrev == "" && valorPrev == ""
      ensures old(nome) != "" ==> added == Some(NewItem(old(nome), NonEmpty(old(dataPrev)), NumberOrZero(valorNumber)))
    {
      if nome == "" {
        return None;
      }
      added := Some(NewItem(nome, NonEmpty(dataPrev), NumberOrZero(valorNumber)));
      nome := "";
      dataPrev := "";
      valorPrev := "";
      adding := false;
    }
  }
}
