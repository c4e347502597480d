/** The expense categories of src/lib/categories.ts: a fixed table of ids,
    labels and chart colours, and the lookup that falls back on the last
    entry, "outros". The icons are left out. */
module Categories {
  import opened Common

  /** `label` is a reserved word in Dafny, so the label is `caption`. */
  datatype Categoria = Categoria(id: string, caption: string, color: string)

  const CATEGORIAS: seq<Categoria> := [
    Categoria("moradia", "Moradia", "hsl(243, 75%, 59%)"),
    Categoria("padaria", "Padaria", "hsl(38, 92%, 50%)"),
    Categoria("mercado", "Mercado", "hsl(142, 71%, 45%)"),
    Categoria("posto", "Posto", "hsl(0, 72%, 51%)"),
    Categoria("transporte", "Transporte", "hsl(200, 65%, 50%)"),
    Categoria("alimentacao", "Alimenta\U{E7}\U{E3}o", "hsl(25, 95%, 53%)"),
    Categoria("educacao", "Educa\U{E7}\U{E3}o", "hsl(262, 83%, 58%)"),
    Categoria("servicos", "Servi\U{E7}os", "hsl(220, 10%, 46%)"),
    Categoria("roupas", "Roupas", "hsl(330, 70%, 55%)"),
    Categoria("saude", "Sa\U{FA}de", "hsl(0, 84%, 60%)"),
    Categoria("lazer", "Lazer", "hsl(170, 60%, 45%)"),
    Categoria("esporte", "Esporte", "hsl(45, 93%, 47%)"),
    Categoria("outros", "Outros", "hsl(220, 14%, 50%)")
  ]

  /** The last entry, used for ids the table does not know. */
  const Outros: Categoria := CATEGORIAS[|CATEGORIAS| - 1]

  function HasId(id: string): Categoria -> bool {
    (c: Categoria) => c.id == id
  }

  /** `table.find((c) => c.id === id) || table[table.length - 1]` */
  function Lookup(table: seq<Categoria>, id: string): (r: Categoria)
    requires |table| > 0
    ensures r in table
    ensures (exists c :: c in table && c.id == id) ==> r.id == id
    ensures (forall c :: c in table ==> c.id != id) ==> r == table[|table| - 1]
  {
    var found := Find(table, HasId(id));
    if found.Some? then found.value
    else
      assert forall c :: c in table ==> c.id != id by {
        forall c | c in table ensures c.id != id {
          var i :| 0 <= i < |table| && table[i] == c;
          assert !HasId(id)(table[i]);
        }
      }
      table[|table| - 1]
  }

  /** `getCategoriaInfo`: the entry with this id, or "outros". */
  function GetCategoriaInfo(id: string): (r: Categoria)
    ensures r in CATEGORIAS
    ensures (exists c :: c in CATEGORIAS && c.id == id) ==> r.id == id
    ensures (forall c :: c in CATEGORIAS ==> c.id != id) ==> r == Outros
  {
    Lookup(CATEGORIAS, id)
  }

  /** No two entries share an id, so the entry found is the only one. */
  lemma IdsDistinct()
    ensures forall i, j :: 0 <= i < j < |CATEGORIAS| ==> CATEGORIAS[i].id != CATEGORIAS[j].id
  {
  }

  predicate DistinctIds(table: seq<Categoria>) {
    forall i, j :: 0 <= i < j < |table| ==> table[i].id != table[j].id
  }

  /** In a table without repeated ids the lookup of an entry's id is that
      entry. */
  lemma LookupDistinct(table: seq<Categoria>, id: string, c: Categoria)
    requires |table| > 0 && DistinctIds(table) && c in table && c.id == id
    ensures Lookup(table, id) == c
  {
    var r := Lookup(table, id);
    var i :| 0 <= i < |table| && table[i] == c;
    var j :| 0 <= j < |table| && table[j] == r;
    assert !(i < j) && !(j < i);
  }

  /** A known id finds exactly its own entry. */
  lemma LookupIsUnique(id: string, c: Categoria)
    requires c in CATEGORIAS && c.id == id
    ensures GetCategoriaInfo(id) == c
  {
    IdsDistinct();
    assert DistinctIds(CATEGORIAS);
    LookupDistinct(CATEGORIAS, id, c);
  }

  lemma OutrosIsLast()
    ensures Outros.id == "outros" && Outros.caption == "Outros"
    ensures GetCategoriaInfo("outros") == Outros
  {
    LookupIsUnique("outros", Outros);
  }
}
