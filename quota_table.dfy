/**
 * The sortable quota table: clicking a column header updates the sort
 * configuration, the displayed rows are a sorted copy of the quotas, and each
 * row shows a rounded completion percentage with a colour.
 */
module Quotas {
  import opened Wrappers

  datatype Quota = Quota(
    id: int,
    region: string,
    enqueteur: string,
    quotaTotal: real,
    quotaComplete: real,
    dateDebut: string,
    dateFin: string,
    statut: string,
    tauxResolution: real,
    qualiteDonnees: real,
    client: string,
    typeEnquete: string)

  /** The keys of a quota record (`keyof Quota`). */
  datatype SortKey =
    | Id | Region | Enqueteur | QuotaTotal | QuotaComplete | DateDebut | DateFin
    | Statut | TauxResolution | QualiteDonnees | Client | TypeEnquete

  datatype Direction = Ascending | Descending

  datatype SortConfig = SortConfig(key: Option<SortKey>, direction: Direction)

  /** A field's value: the numeric fields compare as numbers, the others as strings. */
  datatype FieldValue = Num(n: real) | Text(s: string)

  function Field(q: Quota, key: SortKey): FieldValue {
    match key
    case Id => Num(q.id as real)
    case Region => Text(q.region)
    case Enqueteur => Text(q.enqueteur)
    case QuotaTotal => Num(q.quotaTotal)
    case QuotaComplete => Num(q.quotaComplete)
    case DateDebut => Text(q.dateDebut)
    case DateFin => Text(q.dateFin)
    case Statut => Text(q.statut)
    case TauxResolution => Num(q.tauxResolution)
    case QualiteDonnees => Num(q.qualiteDonnees)
    case Client => Text(q.client)
    case TypeEnquete => Text(q.typeEnquete)
  }

  /** JavaScript `a < b` on strings: lexicographic on characters, a proper prefix first. */
  predicate StringLess(a: string, b: string) {
    if |a| == 0 then |b| > 0
    else if |b| == 0 then false
    else if a[0] != b[0] then a[0] < b[0]
    else StringLess(a[1..], b[1..])
  }

  /** JavaScript `<` on two values of the same field. */
  predicate ValueLess(u: FieldValue, v: FieldValue) {
    match (u, v)
    case (Num(a), Num(b)) => a < b
    case (Text(a), Text(b)) => StringLess(a, b)
    case _ => false
  }

  /** The comparator passed to `sort`: negative puts `a` first, positive puts `b` first. */
  function Compare(a: Quota, b: Quota, key: SortKey, direction: Direction): (r: int)
    ensures -1 <= r <= 1
    ensures r < 0 <==> if direction == Ascending then ValueLess(Field(a, key), Field(b, key)) else ValueLess(Field(b, key), Field(a, key))
    ensures r == 0 <==> !ValueLess(Field(a, key), Field(b, key)) && !ValueLess(Field(b, key), Field(a, key))
  {
    var av, bv := Field(a, key), Field(b, key);
    ValueLessAsymmetric(av, bv);
    if ValueLess(av, bv) then (if direction == Ascending then -1 else 1)
    else if ValueLess(bv, av) then (if direction == Ascending then 1 else -1)
    else 0
  }

  /** `<` on two values of the same field is asymmetric. */
  lemma ValueLessAsymmetric(u: FieldValue, v: FieldValue)
    ensures ValueLess(u, v) ==> !ValueLess(v, u)
  {
    if u.Text? && v.Text? {
      StringLessAsymmetric(u.s, v.s);
    }
  }

  /** `a` may precede `b` in the output: the comparator does not ask to swap them. */
  predicate InOrder(a: Quota, b: Quota, key: SortKey, direction: Direction) {
    Compare(a, b, key, direction) <= 0
  }

  ghost predicate SortedBy(s: seq<Quota>, key: SortKey, direction: Direction) {
    forall i, j :: 0 <= i < j < |s| ==> InOrder(s[i], s[j], key, direction)
  }

  // ------------------------------------------------------------ the order

  lemma {:induction false} StringLessIrreflexive(a: string)
    ensures !StringLess(a, a)
  {
    if |a| > 0 {
      StringLessIrreflexive(a[1..]);
    }
  }

  lemma {:induction false} StringLessTransitive(a: string, b: string, c: string)
    requires StringLess(a, b) && StringLess(b, c)
    ensures StringLess(a, c)
  {
    if |a| > 0 && a[0] == b[0] && b[0] == c[0] {
      StringLessTransitive(a[1..], b[1..], c[1..]);
    }
  }

  lemma {:induction false} StringLessTotal(a: string, b: string)
    ensures StringLess(a, b) || StringLess(b, a) || a == b
  {
    if |a| > 0 && |b| > 0 && a[0] == b[0] {
      StringLessTotal(a[1..], b[1..]);
      if a[1..] == b[1..] {
        assert a == [a[0]] + a[1..] && b == [b[0]] + b[1..];
      }
    }
  }

  /** The comparator is antisymmetric: swapping its arguments negates it. */
  lemma CompareAntisymmetric(a: Quota, b: Quota, key: SortKey, direction: Direction)
    ensures Compare(b, a, key, direction) == -Compare(a, b, key, direction)
  {
    var av, bv := Field(a, key), Field(b, key);
    if av.Text? && bv.Text? && StringLess(av.s, bv.s) && StringLess(bv.s, av.s) {
      StringLessTransitive(av.s, bv.s, av.s);
      StringLessIrreflexive(av.s);
    }
  }

  /** `<` on strings is asymmetric. */
  lemma StringLessAsymmetric(x: string, y: string)
    ensures StringLess(x, y) ==> !StringLess(y, x)
  {
    StringLessIrreflexive(x);
    if StringLess(x, y) && StringLess(y, x) {
      StringLessTransitive(x, y, x);
    }
  }

  /** "Not greater" on strings is transitive. */
  lemma NotLessTransitive(x: string, y: string, z: string)
    requires !StringLess(y, x) && !StringLess(z, y)
    ensures !StringLess(z, x)
  {
    StringLessTotal(x, y);
    StringLessTotal(y, z);
    if x != y && y != z {
      StringLessTransitive(x, y, z);
    }
    StringLessAsymmetric(x, z);
  }

  /** Two quotas' values for one key are both numbers or both strings. */
  lemma SameKind(a: Quota, b: Quota, key: SortKey)
    ensures Field(a, key).Text? == Field(b, key).Text?
  {
  }

  /** `InOrder` on the string values of a key. */
  predicate TextInOrder(x: string, y: string, direction: Direction) {
    if StringLess(x, y) then direction == Ascending
    else if StringLess(y, x) then direction == Descending
    else true
  }

  lemma TextInOrderTransitive(x: string, y: string, z: string, direction: Direction)
    requires TextInOrder(x, y, direction) && TextInOrder(y, z, direction)
    ensures TextInOrder(x, z, direction)
  {
    StringLessAsymmetric(x, y);
    StringLessAsymmetric(y, z);
    StringLessAsymmetric(x, z);
    if direction == Ascending {
      NotLessTransitive(x, y, z);
    } else {
      NotLessTransitive(z, y, x);
    }
  }

  /** "May precede" is transitive, so pairwise order of neighbours extends to the whole list. */
  lemma InOrderTransitive(a: Quota, b: Quota, c: Quota, key: SortKey, direction: Direction)
    requires InOrder(a, b, key, direction) && InOrder(b, c, key, direction)
    ensures InOrder(a, c, key, direction)
  {
    SameKind(a, b, key);
    SameKind(b, c, key);
    var av, bv, cv := Field(a, key), Field(b, key), Field(c, key);
    if av.Text? {
      TextInOrderTransitive(av.s, bv.s, cv.s, direction);
    }
  }

  /**
   * What sorted means for the key: ascending output never has a smaller key
   * after a larger one, descending output never a larger after a smaller.
   */
  lemma SortedMeansMonotoneKey(s: seq<Quota>, key: SortKey, direction: Direction, i: int, j: int)
    requires SortedBy(s, key, direction)
    requires 0 <= i < j < |s|
    ensures direction == Ascending ==> !ValueLess(Field(s[j], key), Field(s[i], key))
    ensures direction == Descending ==> !ValueLess(Field(s[i], key), Field(s[j], key))
  {
    assert InOrder(s[i], s[j], key, direction);
    CompareAntisymmetric(s[i], s[j], key, direction);
  }

  // ------------------------------------------------------------ the sort

  /** The first `n` cells of `a` are in comparator order. */
  ghost predicate SortedPrefix(a: array<Quota>, n: int, key: SortKey, direction: Direction)
    requires 0 <= n <= a.Length
    reads a
  {
    forall p, q :: 0 <= p < q < n ==> InOrder(a[p], a[q], key, direction)
  }

  /**
   * `[...quotas].sort(comparator)`: copy the list into a fresh array and sort
   * that copy in place (a stable insertion sort); the input is a value and is
   * left as it was.
   */
  method SortCopy(quotas: seq<Quota>, key: SortKey, direction: Direction) returns (r: seq<Quota>)
    ensures multiset(r) == multiset(quotas)
    ensures SortedBy(r, key, direction)
  {
    var a := new Quota[|quotas|](k requires 0 <= k < |quotas| => quotas[k]);
    assert a[..] == quotas;
    var i := 0;
    while i < a.Length
      invariant 0 <= i <= a.Length
      invariant SortedPrefix(a, i, key, direction)
      invariant multiset(a[..]) == multiset(quotas)
    {
      InsertLast(a, i, key, direction);
      i := i + 1;
    }
    r := a[..];
  }

  /** Moves `a[i]` left past every element the comparator puts after it. */
  method InsertLast(a: array<Quota>, i: int, key: SortKey, direction: Direction)
    requires 0 <= i < a.Length
    requires SortedPrefix(a, i, key, direction)
    modifies a
    ensures SortedPrefix(a, i + 1, key, direction)
    ensures multiset(a[..]) == multiset(old(a[..]))
  {
    var j := i;
    while j > 0 && Compare(a[j - 1], a[j], key, direction) > 0
      invariant 0 <= j <= i
      invariant forall p, q :: 0 <= p < q <= i && q != j ==> InOrder(a[p], a[q], key, direction)
      invariant multiset(a[..]) == multiset(old(a[..]))
    {
      CompareAntisymmetric(a[j - 1], a[j], key, direction);
      Swap(a, j - 1, j);
      j := j - 1;
    }
    forall p | 0 <= p < j
      ensures InOrder(a[p], a[j], key, direction)
    {
      if p < j - 1 {
        InOrderTransitive(a[p], a[j - 1], a[j], key, direction);
      }
    }
  }

  method Swap(a: array<Quota>, i: int, j: int)
    requires 0 <= i < j < a.Length
    modifies a
    ensures a[i] == old(a[j]) && a[j] == old(a[i])
    ensures forall k :: 0 <= k < a.Length && k != i && k != j ==> a[k] == old(a[k])
    ensures multiset(a[..]) == multiset(old(a[..]))
  {
    a[i], a[j] := a[j], a[i];
  }

  // ------------------------------------------------------------ the table

  /** The state transition of a click on a column header. */
  function Clicked(config: SortConfig, key: SortKey): (r: SortConfig)
    ensures r.key == Some(key)
    ensures r.direction == Descending <==> config == SortConfig(Some(key), Ascending)
  {
    SortConfig(Some(key),
               if config.key == Some(key) && config.direction == Ascending then Descending else Ascending)
  }

  /** After the first click on a key, further clicks on it alternate between the two directions. */
  lemma ClickedBehaviour(config: SortConfig, key: SortKey)
    ensures Clicked(Clicked(config, key), key).direction != Clicked(config, key).direction
    ensures Clicked(Clicked(Clicked(config, key), key), key) == Clicked(config, key)
  {
  }

  class QuotaTable {
    var quotas: seq<Quota>
    var sortConfig: SortConfig

    constructor (quotas: seq<Quota>)
      ensures this.quotas == quotas
      ensures sortConfig == SortConfig(None, Ascending)
    {
      this.quotas := quotas;
      sortConfig := SortConfig(None, Ascending);
    }

    /** `handleSort(key)` */
    method HandleSort(key: SortKey)
      modifies this
      ensures sortConfig == Clicked(old(sortConfig), key)
      ensures quotas == old(quotas)
    {
      var direction := Ascending;
      if sortConfig.key == Some(key) && sortConfig.direction == Ascending {
        direction := Descending;
      }
      sortConfig := SortConfig(Some(key), direction);
    }

    /** `sortedQuotas`: the quotas unchanged without a key, else a sorted copy. */
    method SortedQuotas() returns (r: seq<Quota>)
      ensures sortConfig.key.None? ==> r == quotas
      ensures multiset(r) == multiset(quotas)
      ensures sortConfig.key.Some? ==> SortedBy(r, sortConfig.key.value, sortConfig.direction)
    {
      if sortConfig.key.None? {
        return quotas;
      }
      r := SortCopy(quotas, sortConfig.key.value, sortConfig.direction);
    }
  }

  // ------------------------------------------------------------ display

  /** `Math.round(x)`: the nearest integer, halves rounded up. */
  function Round(x: real): (r: int)
    ensures r as real - 0.5 <= x < r as real + 0.5
  {
    (x + 0.5).Floor
  }

  /** `Math.round((quotaComplété / quotaTotal) * 100)`; a zero total gives `NaN` in the source. */
  function ProgressPercent(q: Quota): (p: int)
    requires q.quotaTotal != 0.0
    ensures var exact := (q.quotaComplete / q.quotaTotal) * 100.0;
            p as real - 0.5 <= exact < p as real + 0.5
  {
    Round((q.quotaComplete / q.quotaTotal) * 100.0)
  }

  /** A completion within the quota shows as a percentage between 0 and 100. */
  lemma ProgressPercentBounds(q: Quota)
    requires 0.0 <= q.quotaComplete <= q.quotaTotal && q.quotaTotal > 0.0
    ensures 0 <= ProgressPercent(q) <= 100
  {
    var c, t := q.quotaComplete, q.quotaTotal;
    assert 0.0 <= c / t <= 1.0 by {
      assert c / t * t == c;
    }
  }

  const ProgressColors: seq<string> := ["bg-red-500", "bg-yellow-500", "bg-green-500", "bg-green-600"]

  /** `getProgressColor(percentage)` */
  function ProgressColor(percentage: int): (c: string)
    ensures c in ProgressColors
    ensures c == "bg-green-600" <==> percentage >= 100
    ensures c == "bg-green-500" <==> 50 <= percentage < 100
    ensures c == "bg-yellow-500" <==> 30 <= percentage < 50
    ensures c == "bg-red-500" <==> percentage < 30
  {
    if percentage >= 100 then "bg-green-600"
    else if percentage >= 50 then "bg-green-500"
    else if percentage >= 30 then "bg-yellow-500"
    else "bg-red-500"
  }

  /** The position of a progress colour in `ProgressColors`, worst first. */
  function ProgressLevel(color: string): nat {
    if color == ProgressColors[3] then 3
    else if color == ProgressColors[2] then 2
    else if color == ProgressColors[1] then 1
    else 0
  }

  /** Every percentage gets one of the four colours, and a higher percentage never a worse one. */
  lemma ProgressColorMonotone(p1: int, p2: int)
    requires p1 <= p2
    ensures ProgressLevel(ProgressColor(p1)) <= ProgressLevel(ProgressColor(p2))
  {
  }

  /** A quota that is met or exceeded is always shown in the "done" colour. */
  lemma MetQuotaIsDarkGreen(q: Quota)
    requires 0.0 < q.quotaTotal <= q.quotaComplete
    ensures ProgressColor(ProgressPercent(q)) == "bg-green-600"
  {
    var c, t := q.quotaComplete, q.quotaTotal;
    assert c / t >= 1.0 by {
      assert c / t * t == c;
    }
  }

  const KnownStatuses: seq<string> := ["Termin\U{00E9}", "Presque termin\U{00E9}", "En cours", "D\U{00E9}but\U{00E9}", "En retard"]
  const UnknownStatusColor := "bg-gray-100 text-gray-800"

  /** `getStatusColor(status)` */
  function StatusColor(status: string): (c: string)
    ensures c == UnknownStatusColor <==> status !in KnownStatuses
  {
    if status == KnownStatuses[0] then "bg-green-100 text-green-800"
    else if status == KnownStatuses[1] then "bg-blue-100 text-blue-800"
    else if status == KnownStatuses[2] then "bg-yellow-100 text-yellow-800"
    else if status == KnownStatuses[3] then "bg-purple-100 text-purple-800"
    else if status == KnownStatuses[4] then "bg-red-100 text-red-800"
    else UnknownStatusColor
  }

  /** The five known statuses get five distinct classes. */
  lemma StatusColorsDistinct(i: int, j: int)
    requires 0 <= i < j < |KnownStatuses|
    ensures StatusColor(KnownStatuses[i]) != StatusColor(KnownStatuses[j])
  {
  }
}
