/** The backend rows the core reads and writes (tables `lancamentos`,
    `cartoes`, `faturas` of src/integrations/supabase/types.ts), reduced to
    the columns the core uses, and sums over them. Amounts are exact decimals;
    a row id is a number the table hands out, standing for the uuid the
    backend generates. */
module Records {
  import opened Common
  import opened Calendar

  /** The columns of a `lancamentos` row other than its id: what an insert sends. */
  datatype Entry = Entry(
    userId: string,
    tipo: string,             // "receita" or "despesa"
    descricao: string,
    valor: real,
    data: Date,
    categoria: string,
    fixo: bool,
    metodo: string,           // "avista" or "cartao"
    cartaoId: Option<string>,
    loja: Option<string>,
    parcelaAtual: Option<int>,
    totalParcelas: Option<int>,
    parcelaGrupoId: Option<string>,
    comprovanteUrl: Option<string>)

  datatype Row = Row(id: nat, entry: Entry)

  /** A `cartoes` row: the card id and its billing days. */
  datatype Cartao = Cartao(id: string, instituicao: string, diaFechamento: int, diaVencimento: int)

  /** A `faturas` row: whether the card's invoice of a month is paid. */
  datatype Fatura = Fatura(id: string, cartaoId: string, mes: int, ano: int, pago: bool)

  /** `rows.reduce((s, l) => s + l.valor, 0)` */
  function SumValor(rows: seq<Row>): real {
    if rows == [] then 0.0 else SumValor(rows[..|rows| - 1]) + rows[|rows| - 1].entry.valor
  }

  function SumEntries(entries: seq<Entry>): real {
    if entries == [] then 0.0 else SumEntries(entries[..|entries| - 1]) + entries[|entries| - 1].valor
  }

  /** `rows.filter(p)` */
  function Filter(rows: seq<Row>, p: Row -> bool): (r: seq<Row>)
    ensures |r| <= |rows|
    ensures forall x :: x in r <==> x in rows && p(x)
  {
    if rows == [] then []
    else
      var init := rows[..|rows| - 1];
      assert rows == init + [rows[|rows| - 1]];
      Filter(init, p) + (if p(rows[|rows| - 1]) then [rows[|rows| - 1]] else [])
  }

  /** Splitting rows by a predicate and its negation splits their sum. */
  lemma {:induction false} SumFilterSplit(rows: seq<Row>, p: Row -> bool, q: Row -> bool)
    requires forall x :: q(x) == !p(x)
    ensures SumValor(Filter(rows, p)) + SumValor(Filter(rows, q)) == SumValor(rows)
  {
    if rows != [] {
      var init := rows[..|rows| - 1];
      var last := rows[|rows| - 1];
      SumFilterSplit(init, p, q);
      SumAppend(Filter(init, p), if p(last) then [last] else []);
      SumAppend(Filter(init, q), if q(last) then [last] else []);
    }
  }

  lemma {:induction false} FilterAppend(a: seq<Row>, b: seq<Row>, p: Row -> bool)
    ensures Filter(a + b, p) == Filter(a, p) + Filter(b, p)
  {
    if b == [] {
      assert a + b == a;
    } else {
      assert (a + b)[..|a + b| - 1] == a + b[..|b| - 1];
      FilterAppend(a, b[..|b| - 1], p);
    }
  }

  /** Filtering twice is filtering by both predicates. */
  lemma {:induction false} FilterFilter(rows: seq<Row>, p: Row -> bool, q: Row -> bool, pq: Row -> bool)
    requires forall x :: pq(x) == (p(x) && q(x))
    ensures Filter(Filter(rows, p), q) == Filter(rows, pq)
  {
    if rows != [] {
      var init := rows[..|rows| - 1];
      var last := rows[|rows| - 1];
      FilterFilter(init, p, q, pq);
      FilterAppend(Filter(init, p), if p(last) then [last] else [], q);
      if p(last) {
        assert Filter([last], q) == Filter([], q) + (if q(last) then [last] else []) by {
          assert [last][..0] == [];
        }
      }
    }
  }

  /** Predicates that agree on the rows filter them alike. */
  lemma {:induction false} FilterExt(rows: seq<Row>, p: Row -> bool, q: Row -> bool)
    requires forall x :: x in rows ==> p(x) == q(x)
    ensures Filter(rows, p) == Filter(rows, q)
  {
    if rows != [] {
      FilterExt(rows[..|rows| - 1], p, q);
    }
  }

  lemma {:induction false} SumAppend(a: seq<Row>, b: seq<Row>)
    ensures SumValor(a + b) == SumValor(a) + SumValor(b)
  {
    if b != [] {
      assert (a + b)[..|a + b| - 1] == a + b[..|b| - 1];
      SumAppend(a, b[..|b| - 1]);
    } else {
      assert a + b == a;
    }
  }

  predicate DistinctIds(rows: seq<Row>) {
    forall i, j :: 0 <= i < j < |rows| ==> rows[i].id != rows[j].id
  }

  /** Filtering keeps ids distinct. */
  lemma {:induction false} FilterDistinct(rows: seq<Row>, p: Row -> bool)
    requires DistinctIds(rows)
    ensures DistinctIds(Filter(rows, p))
  {
    if rows != [] {
      var init := rows[..|rows| - 1];
      var last := rows[|rows| - 1];
      FilterDistinct(init, p);
      var f := Filter(init, p);
      forall x | x in f ensures x.id != last.id {
        var i :| 0 <= i < |init| && init[i] == x;
      }
      var r := f + (if p(last) then [last] else []);
      forall i, j | 0 <= i < j < |r| ensures r[i].id != r[j].id {
        if j == |f| {
          assert r[i] in f;
        }
      }
    }
  }
}
