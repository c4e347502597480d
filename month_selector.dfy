/** The month stepper of src/components/MonthSelector.tsx. A month is the pair
    (mes, ano) with mes zero-based (0 is January), as JavaScript's getMonth
    returns it. */
module MonthSelector {

  datatype MonthYear = MonthYear(mes: int, ano: int)

  /** The months since January of year 0. */
  function Ordinal(m: MonthYear): int {
    12 * m.ano + m.mes
  }

  predicate InRange(m: MonthYear) {
    0 <= m.mes <= 11
  }

  /** `prev`: January steps back to December of the year before. */
  function Prev(m: MonthYear): (r: MonthYear)
    ensures InRange(m) ==> InRange(r) && Ordinal(r) == Ordinal(m) - 1
    ensures m.mes == 0 ==> r == MonthYear(11, m.ano - 1)
    ensures m.mes != 0 ==> r == MonthYear(m.mes - 1, m.ano)
  {
    if m.mes == 0 then MonthYear(11, m.ano - 1) else MonthYear(m.mes - 1, m.ano)
  }

  /** `next`: December steps on to January of the year after. */
  function Next(m: MonthYear): (r: MonthYear)
    ensures InRange(m) ==> InRange(r) && Ordinal(r) == Ordinal(m) + 1
    ensures m.mes == 11 ==> r == MonthYear(0, m.ano + 1)
    ensures m.mes != 11 ==> r == MonthYear(m.mes + 1, m.ano)
  {
    if m.mes == 11 then MonthYear(0, m.ano + 1) else MonthYear(m.mes + 1, m.ano)
  }

  /** Months in range are determined by their ordinal. */
  lemma OrdinalDetermines(a: MonthYear, b: MonthYear)
    requires InRange(a) && InRange(b) && Ordinal(a) == Ordinal(b)
    ensures a == b
  {
  }

  /** Stepping back and then forward, or forward and then back, returns to the
      month one started from. */
  lemma StepsAreInverse(m: MonthYear)
    requires InRange(m)
    ensures Next(Prev(m)) == m
    ensures Prev(Next(m)) == m
  {
    OrdinalDetermines(Next(Prev(m)), m);
    OrdinalDetermines(Prev(Next(m)), m);
  }

  /** Twelve steps forward reach the same month of the next year. */
  lemma TwelveStepsIsAYear(m: MonthYear)
    requires InRange(m)
    ensures Next(Next(Next(Next(Next(Next(Next(Next(Next(Next(Next(Next(m))))))))))))
            == MonthYear(m.mes, m.ano + 1)
  {
    var r := Next(Next(Next(Next(Next(Next(Next(Next(Next(Next(Next(Next(m))))))))))));
    OrdinalDetermines(r, MonthYear(m.mes, m.ano + 1));
  }
}
