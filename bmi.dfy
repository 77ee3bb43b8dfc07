/** The BMI page (`pages/imc.js`): the category of a body-mass index, the
    calculation with its centimetre/metre rule, the saved-record list kept in
    page state, its CSV export and its summary figures. Numbers are Dafny
    `real`s; `None` stands for JavaScript's `null` and `NaN`. */
module Bmi {
  import opened Wrappers
  import opened Seqs
  import opened Strings
  import Csv

  const MaxRecords: nat := 500

  // ------------------------------------------------------------- category

  /** The position of `bmi` among the four bands. */
  function CategoryRank(bmi: real): (r: nat)
    ensures r <= 3
    ensures r == 0 <==> bmi < 18.5
    ensures r == 1 <==> 18.5 <= bmi < 25.0
    ensures r == 2 <==> 25.0 <= bmi < 30.0
    ensures r == 3 <==> 30.0 <= bmi
  {
    if bmi < 18.5 then 0 else if bmi < 25.0 then 1 else if bmi < 30.0 then 2 else 3
  }

  function CategoryName(rank: nat): (r: string)
    requires rank <= 3
    ensures r != []
  {
    if rank == 0 then "Abaixo do peso"
    else if rank == 1 then "Normal"
    else if rank == 2 then "Sobrepeso"
    else "Obesidade"
  }

  /** `bmiCategory`: no text without a value, otherwise the band's name. */
  function BmiCategory(bmi: Option<real>): (r: string)
    ensures r == [] <==> bmi.None?
    ensures bmi.Some? ==> r == CategoryName(CategoryRank(bmi.value))
  {
    match bmi
    case None => ""
    case Some(b) =>
      if b < 18.5 then "Abaixo do peso"
      else if b < 25.0 then "Normal"
      else if b < 30.0 then "Sobrepeso"
      else "Obesidade"
  }

  /** A larger index never lands in a lighter band. */
  lemma CategoryMonotone(a: real, b: real)
    requires a <= b
    ensures CategoryRank(a) <= CategoryRank(b)
  {
  }

  // ---------------------------------------------------------- calculation

  /** `Math.round(v * 100) / 100`: `v` to the nearest hundredth, halves up. */
  function RoundCents(v: real): (r: real)
    ensures v - 0.005 < r <= v + 0.005
  {
    ((v * 100.0 + 0.5).Floor as real) / 100.0
  }

  /** A height above 10 is read as centimetres. */
  function Metres(h: real): real
  {
    if h > 10.0 then h / 100.0 else h
  }

  /** The index the page shows: weight over height squared, to the nearest
      hundredth, when there is a weight and a positive height. */
  function BmiOf(weight: Option<real>, height: Option<real>): (r: Option<real>)
    ensures r.Some? <==> weight.Some? && height.Some? && height.value > 0.0
    ensures r.Some? ==>
      var m := Metres(height.value);
      m > 0.0 && Ratio(weight.value, m) - 0.005 < r.value <= Ratio(weight.value, m) + 0.005
  {
    if weight.Some? && height.Some? && height.value > 0.0 then
      Some(RoundCents(Ratio(weight.value, Metres(height.value))))
    else None
  }

  /** Weight over height squared. */
  function Ratio(w: real, m: real): real
    requires m > 0.0
  {
    SignOfProduct(m, m);
    w / (m * m)
  }

  lemma SignOfProduct(x: real, y: real)
    requires y > 0.0
    ensures x > 0.0 ==> x * y > 0.0
    ensures x < 0.0 ==> x * y < 0.0
  {
  }

  /** `compute`, on the already parsed inputs (an empty weight field reads as
      0): a zero or unreadable height gives no index, a height above 10 is
      divided by 100 first, and a height still not positive gives no index. */
  method Compute(weight: Option<real>, height: Option<real>) returns (bmi: Option<real>)
    ensures bmi == BmiOf(weight, height)
  {
    if height.None? || height.value == 0.0 {
      return None;
    }
    var h := height.value;
    if h > 10.0 {
      h := h / 100.0;
    }
    if h <= 0.0 {
      return None;
    }
    if weight.None? {
      return None;
    }
    assert h == Metres(height.value);
    var val := Ratio(weight.value, h);
    bmi := Some(RoundCents(val));
  }

  /** "175" and "1.75" give the same index. */
  lemma CentimetresAgreeWithMetres(weight: real, h: real)
    requires 0.1 < h <= 10.0
    ensures BmiOf(Some(weight), Some(h * 100.0)) == BmiOf(Some(weight), Some(h))
  {
    assert Metres(h * 100.0) == h;
    assert BmiOf(Some(weight), Some(h * 100.0)) == Some(RoundCents(Ratio(weight, h)));
  }

  // -------------------------------------------------------------- records

  datatype ImcRecord = ImcRecord(id: int, date: string, weight: real, height: real, bmi: Option<real>)

  /** What the server answered to a request. */
  datatype Reply<T> = Unauthorized | Failed | Ok(value: T)

  function HasNoId(id: int): ImcRecord -> bool
  {
    (r: ImcRecord) => r.id != id
  }

  /** `saveRecord`: nothing is sent without a non-zero index; a created
      record goes in front and the list is cut to 500; any other answer
      leaves the list alone. */
  function SaveRecord(records: seq<ImcRecord>, bmi: Option<real>, reply: Reply<ImcRecord>): (r: seq<ImcRecord>)
    ensures bmi.None? || bmi == Some(0.0) || !reply.Ok? ==> r == records
    ensures bmi.Some? && bmi != Some(0.0) && reply.Ok? ==>
      |r| == (if |records| + 1 < MaxRecords then |records| + 1 else MaxRecords)
      && r[0] == reply.value && r[1..] == records[..|r| - 1]
  {
    if bmi.None? || bmi == Some(0.0) || !reply.Ok? then records
    else
      var all := [reply.value] + records;
      var r := all[..if |all| < MaxRecords then |all| else MaxRecords];
      assert r[1..] == records[..|r| - 1];
      r
  }

  /** `remove(id)`: on success exactly the records with that id go, the
      others stay in order. */
  function Remove(records: seq<ImcRecord>, id: int, reply: Reply<()>): (r: seq<ImcRecord>)
    ensures !reply.Ok? ==> r == records
    ensures reply.Ok? ==> forall x :: x in r <==> x in records && x.id != id
    ensures reply.Ok? ==> IsSubsequence(r, records)
    ensures reply.Ok? ==> forall x :: multiset(r)[x] == if x.id != id then multiset(records)[x] else 0
  {
    if reply.Ok? then
      FilterIsSubsequence(records, HasNoId(id));
      FilterCounts(records, HasNoId(id));
      Filter(records, HasNoId(id))
    else records
  }

  /** `clearAll`: on a confirmed and accepted request the list is emptied. */
  function ClearAll(records: seq<ImcRecord>, confirmed: bool, reply: Reply<()>): (r: seq<ImcRecord>)
    ensures confirmed && reply.Ok? ==> |r| == 0
    ensures !(confirmed && reply.Ok?) ==> r == records
  {
    if confirmed && reply.Ok? then [] else records
  }

  // ---------------------------------------------------------------- export

  const Header: seq<string> := ["id", "date", "weight", "height", "bmi"]

  /** `[r.id, r.date, r.weight, r.height, r.bmi]` as text; `number` is how
      JavaScript writes a number, and a missing index is written `null`. */
  function Cells(r: ImcRecord, number: real -> string): (cells: seq<string>)
    ensures |cells| == 5
  {
    [IntToString(r.id), r.date, number(r.weight), number(r.height),
     match r.bmi case None => "null" case Some(b) => number(b)]
  }

  /** `exportCSV`'s text: the quoted header line, then one line per saved
      record. */
  function ExportCsv(records: seq<ImcRecord>, number: real -> string): (csv: string)
    ensures records == [] ==> csv == Csv.Line(Header)
    ensures records != [] ==> StartsWith(csv, Csv.Line(Header) + "\n")
  {
    var rows := [Header] + seq(|records|, k requires 0 <= k < |records| => Cells(records[k], number));
    var lines := Csv.Lines(rows);
    assert lines[0] == Csv.Line(Header);
    assert records != [] ==> Csv.Document(rows) == Csv.Line(Header) + "\n" + Join(lines[1..], "\n");
    Csv.Document(rows)
  }

  /** Reading the export back gives the header and then exactly the cells of
      every record, in order, whatever quotes, commas or line breaks they
      hold. */
  lemma ExportReadsBack(records: seq<ImcRecord>, number: real -> string)
    ensures Csv.ParseDocument(ExportCsv(records, number))
         == Some([Header] + seq(|records|, k requires 0 <= k < |records| => Cells(records[k], number)))
  {
    var rows := [Header] + seq(|records|, k requires 0 <= k < |records| => Cells(records[k], number));
    forall k | 0 <= k < |rows| ensures rows[k] != [] {
      if k > 0 {
        assert rows[k] == Cells(records[k - 1], number);
      }
    }
    Csv.ParseExport(rows);
  }

  // ----------------------------------------------------------------- stats

  datatype Stats = Stats(count: nat, avg: real, min: real, max: real)

  /** `records.map(r => r.bmi).filter(v => Number.isFinite(v))`. */
  function Bmis(records: seq<ImcRecord>): (r: seq<real>)
    ensures |r| == |Filter(records, HasIndex)| <= |records|
    ensures forall b :: b in r <==> exists x :: x in records && x.bmi == Some(b)
  {
    if records == [] then []
    else
      var rest := Bmis(records[1..]);
      assert forall x :: x in records <==> x == records[0] || x in records[1..];
      match records[0].bmi
      case None => rest
      case Some(b) => [b] + rest
  }

  function HasIndex(x: ImcRecord): bool { x.bmi.Some? }

  /** The indexes of two runs of records are those of the first run followed
      by those of the second, and one record contributes its index when it
      has one: so `Bmis` lists every numeric index once per record, in
      record order. */
  lemma {:induction false} BmisAppend(a: seq<ImcRecord>, b: seq<ImcRecord>)
    ensures Bmis(a + b) == Bmis(a) + Bmis(b)
    ensures |a| == 1 ==> Bmis(a) == if a[0].bmi.Some? then [a[0].bmi.value] else []
  {
    if a != [] {
      var ab := a + b;
      var head := if a[0].bmi.Some? then [a[0].bmi.value] else [];
      assert ab[0] == a[0] && ab[1..] == a[1..] + b;
      assert Bmis(ab) == head + Bmis(ab[1..]);
      assert Bmis(a) == head + Bmis(a[1..]);
      BmisAppend(a[1..], b);
      assert |a| == 1 ==> a[1..] == [];
    } else {
      assert a + b == b;
    }
  }

  /** `Math.min(...arr)`. */
  function MinOf(s: seq<real>): (m: real)
    requires s != []
    ensures m in s && forall x :: x in s ==> m <= x
  {
    if |s| == 1 then s[0]
    else
      var rest := MinOf(s[1..]);
      assert forall x :: x in s ==> x == s[0] || x in s[1..];
      if s[0] <= rest then s[0] else rest
  }

  /** `Math.max(...arr)`. */
  function MaxOf(s: seq<real>): (m: real)
    requires s != []
    ensures m in s && forall x :: x in s ==> x <= m
  {
    if |s| == 1 then s[0]
    else
      var rest := MaxOf(s[1..]);
      assert forall x :: x in s ==> x == s[0] || x in s[1..];
      if s[0] >= rest then s[0] else rest
  }

  /** `stats`: all zeros without records; the record count otherwise, with
      zeros for the figures when no record has an index; else the rounded
      mean and the extremes of the indexes. */
  function ComputeStats(records: seq<ImcRecord>): (s: Stats)
    ensures records == [] ==> s == Stats(0, 0.0, 0.0, 0.0)
    ensures records != [] ==> s.count == |records|
    ensures Bmis(records) == [] ==> s.avg == 0.0 && s.min == 0.0 && s.max == 0.0
    ensures Bmis(records) != [] ==>
      s.min <= s.max && s.min in Bmis(records) && s.max in Bmis(records)
      && forall b :: b in Bmis(records) ==> s.min <= b <= s.max
    ensures Bmis(records) != [] ==> s.min - 0.005 < s.avg <= s.max + 0.005
    ensures Bmis(records) != [] ==>
      var mean := SumReal(Bmis(records)) / (|Bmis(records)| as real);
      mean - 0.005 < s.avg <= mean + 0.005
  {
    if records == [] then Stats(0, 0.0, 0.0, 0.0)
    else
      var arr := Bmis(records);
      if arr == [] then Stats(|records|, 0.0, 0.0, 0.0)
      else
        AverageWithinRange(arr);
        Stats(|records|, RoundCents(SumReal(arr) / (|arr| as real)), MinOf(arr), MaxOf(arr))
  }

  lemma {:induction false} SumRealBounds(s: seq<real>, lo: real, hi: real)
    requires forall x :: x in s ==> lo <= x <= hi
    ensures (|s| as real) * lo <= SumReal(s) <= (|s| as real) * hi
  {
    if s != [] {
      var t := s[1..];
      assert s[0] in s;
      forall x | x in t ensures lo <= x <= hi {
        assert x in s;
      }
      SumRealBounds(t, lo, hi);
      var n := |t| as real;
      assert |s| as real == n + 1.0;
      assert (n + 1.0) * lo == n * lo + lo;
      assert (n + 1.0) * hi == n * hi + hi;
    }
  }

  /** The rounded mean of the indexes lies within half a hundredth of their
      range. */
  lemma AverageWithinRange(arr: seq<real>)
    requires arr != []
    ensures MinOf(arr) - 0.005 < RoundCents(SumReal(arr) / (|arr| as real)) <= MaxOf(arr) + 0.005
  {
    MeanOfBounded(arr, MinOf(arr), MaxOf(arr));
  }

  lemma MeanOfBounded(arr: seq<real>, lo: real, hi: real)
    requires arr != []
    requires forall x :: x in arr ==> lo <= x <= hi
    ensures lo - 0.005 < RoundCents(SumReal(arr) / (|arr| as real)) <= hi + 0.005
  {
    SumRealBounds(arr, lo, hi);
    MeanBetween(SumReal(arr), lo, hi, |arr| as real);
  }

  lemma MeanBetween(sum: real, lo: real, hi: real, n: real)
    requires n > 0.0 && n * lo <= sum <= n * hi
    ensures lo <= sum / n <= hi
  {
    var t := sum / n;
    assert t * n == sum;
    SignOfProduct(t - lo, n);
    SignOfProduct(hi - t, n);
  }
}
