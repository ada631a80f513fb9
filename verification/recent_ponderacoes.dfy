/**
 * The dashboard's list of recent ponderations: the share of "yes" answers
 * shown beside each one's counts.
 */
module RecentPonderacoes {
  import Js

  /** A row of the list: the counts the dashboard reports for one ponderation. */
  datatype Summary = Summary(studentName: string, positivos: nat, negativos: nat)

  /** `pct`: the rounded percentage of "yes" answers, 0 when there are no answers. */
  function Pct(s: Summary): (pct: int)
    ensures 0 <= pct <= 100
    ensures s.positivos + s.negativos == 0 ==> pct == 0
    ensures s.positivos == 0 ==> pct == 0
    ensures s.negativos == 0 && s.positivos > 0 ==> pct == 100
    ensures s.positivos + s.negativos > 0 ==>
      2 * (s.positivos + s.negativos) * pct - (s.positivos + s.negativos) <= 200 * s.positivos
        < 2 * (s.positivos + s.negativos) * pct + (s.positivos + s.negativos)
  {
    var total := s.positivos + s.negativos;
    if total > 0 then
      Js.PercentBounds(s.positivos, total);
      Js.Percent(s.positivos, total)
    else 0
  }

  /** Moving an answer from "no" to "yes" never lowers the percentage. */
  lemma PctMonotone(p: nat, n: nat, name: string)
    requires n > 0
    ensures Pct(Summary(name, p, n)) <= Pct(Summary(name, p + 1, n - 1))
  {
    Js.ScaleMonotone(100, p, p + 1);
    Js.RoundMonotone(100 * p, 100 * (p + 1), p + n);
  }
}
