/**
 * The monthly dog-outcome table: drop records whose timestamp does not parse,
 * keep dogs, label each record MM-YY, count records per (label, outcome type),
 * pivot the counts into the four kept outcome columns and order the rows by the
 * date read back from the label.
 */
module Aggregation {
  import opened Wrappers
  import opened Records
  import opened MonthLabels

  /** Why the aggregation stops: a column the script indexes does not exist. */
  datatype Failure =
    | MissingColumn(column: string)              // a field no fetched record carries
    | MissingOutcomes(outcomes: seq<string>)     // kept outcome types that no surviving record has

  predicate IsDog(r: Record) {
    r.animalType.Some? && Lower(r.animalType.value) == "dog"
  }

  /** A record that is still in the table after the timestamp and species filters. */
  predicate Survives(r: Record)
    ensures Survives(r) <==>
      && r.datetime.At? && r.animalType.Some? && |r.animalType.value| == 3
      && (r.animalType.value[0] == 'd' || r.animalType.value[0] == 'D')
      && (r.animalType.value[1] == 'o' || r.animalType.value[1] == 'O')
      && (r.animalType.value[2] == 'g' || r.animalType.value[2] == 'G')
  {
    if r.animalType.Some? then LowerIsDog(r.animalType.value); r.datetime.At? && IsDog(r)
    else false
  }

  /** A surviving record, reduced to its month label and outcome type. */
  datatype Labelled = Labelled(monthYear: string, outcome: Option<string>)

  function LabelOf(r: Record): Labelled
    requires r.datetime.At?
  {
    Labelled(Label(r.datetime.when), r.outcomeType)
  }

  /** The surviving records, in order, each with its month label. */
  function Survivors(rs: seq<Record>): (ls: seq<Labelled>)
    ensures |ls| <= |rs|
    ensures forall x :: x in ls ==> WellFormed(x.monthYear)
    ensures forall r :: r in rs && Survives(r) ==> LabelOf(r) in ls
  {
    if rs == [] then []
    else
      var head := if Survives(rs[0]) then [LabelOf(rs[0])] else [];
      var tail := Survivors(rs[1..]);
      assert forall r :: r in rs ==> r == rs[0] || r in rs[1..];
      assert forall r :: r in rs[1..] ==> r in rs;
      head + tail
  }

  // A column of the fetched table exists when at least one record carries the field.
  predicate HasDatetime(rs: seq<Record>) {
    exists i :: 0 <= i < |rs| && !rs[i].datetime.Absent?
  }

  predicate HasAnimalType(rs: seq<Record>) {
    exists i :: 0 <= i < |rs| && rs[i].animalType.Some?
  }

  predicate HasOutcomeType(rs: seq<Record>) {
    exists i :: 0 <= i < |rs| && rs[i].outcomeType.Some?
  }

  /** The outcome types that occur among surviving records: the columns of the unstacked counts. */
  function OutcomesOf(ls: seq<Labelled>): set<string> {
    set x | x in ls && x.outcome.Some? :: x.outcome.value
  }

  /** The labels that form groups: those of surviving records with an outcome type. */
  function LabelsWithOutcome(ls: seq<Labelled>): set<string> {
    set x | x in ls && x.outcome.Some? :: x.monthYear
  }

  /** The number of surviving records with this label and this outcome type. */
  function Count(ls: seq<Labelled>, monthYear: string, outcome: string): nat {
    multiset(ls)[Labelled(monthYear, Some(outcome))]
  }

  /** The number of surviving records with this label, whatever their outcome type. */
  function InMonth(ls: seq<Labelled>, monthYear: string): nat {
    if ls == [] then 0
    else (if ls[0].monthYear == monthYear then 1 else 0) + InMonth(ls[1..], monthYear)
  }

  /** The four outcome columns the table keeps, in the order the script selects them. */
  datatype Column = Adoption | Transfer | Euthanasia | ReturnToOwner {
    function Name(): string {
      match this
      case Adoption => "Adoption"
      case Transfer => "Transfer"
      case Euthanasia => "Euthanasia"
      case ReturnToOwner => "Return to Owner"
    }
  }

  const Kept: seq<Column> := [Adoption, Transfer, Euthanasia, ReturnToOwner]

  lemma NamesInjective()
    ensures forall c: Column, d: Column :: c.Name() == d.Name() <==> c == d
  {
    forall c: Column, d: Column ensures c.Name() == d.Name() <==> c == d { NamesDistinct(c, d); }
  }

  lemma NamesDistinct(c: Column, d: Column)
    ensures c.Name() == d.Name() <==> c == d
  {
    assert "Adoption"[0] != "Transfer"[0] && "Adoption"[0] != "Euthanasia"[0] && "Adoption"[0] != "Return to Owner"[0];
    assert "Transfer"[0] != "Euthanasia"[0] && "Transfer"[0] != "Return to Owner"[0];
    assert "Euthanasia"[0] != "Return to Owner"[0];
  }

  /** One row of the table: a month label and its four outcome counts. */
  datatype Row = Row(monthYear: string, adoption: nat, transfer: nat, euthanasia: nat, returnToOwner: nat) {
    function Get(c: Column): nat {
      match c
      case Adoption => adoption
      case Transfer => transfer
      case Euthanasia => euthanasia
      case ReturnToOwner => returnToOwner
    }

    /** The row after counting one more record of outcome type `o`; other types change no column. */
    function Bump(o: string): (r: Row)
      ensures r.monthYear == monthYear
      ensures forall c :: r.Get(c) == Get(c) + (if c.Name() == o then 1 else 0)
    {
      NamesInjective();
      if o == Adoption.Name() then this.(adoption := adoption + 1)
      else if o == Transfer.Name() then this.(transfer := transfer + 1)
      else if o == Euthanasia.Name() then this.(euthanasia := euthanasia + 1)
      else if o == ReturnToOwner.Name() then this.(returnToOwner := returnToOwner + 1)
      else this
    }
  }

  predicate AllWellFormed(rows: seq<Row>) {
    forall r :: r in rows ==> WellFormed(r.monthYear)
  }

  /** Rows in strictly increasing order of the date read back from their labels. */
  predicate Ascending(rows: seq<Row>) {
    && AllWellFormed(rows)
    && forall i, j :: 0 <= i < j < |rows| ==> SortKey(rows[i].monthYear) < SortKey(rows[j].monthYear)
  }

  function Labels(rows: seq<Row>): set<string> {
    set r | r in rows :: r.monthYear
  }

  /** The count in column `c` of the first row labelled `l`, or 0 when no row has that label. */
  function CountIn(rows: seq<Row>, l: string, c: Column): nat {
    if rows == [] then 0
    else if rows[0].monthYear == l then rows[0].Get(c)
    else CountIn(rows[1..], l, c)
  }

  lemma {:induction false} CountInAbsent(rows: seq<Row>, l: string, c: Column)
    requires l !in Labels(rows)
    ensures CountIn(rows, l, c) == 0
  {
    if rows != [] {
      assert rows[0] in rows;
      assert Labels(rows[1..]) <= Labels(rows) by {
        forall r | r in rows[1..] ensures r in rows { }
      }
      CountInAbsent(rows[1..], l, c);
    }
  }

  lemma LabelsCons(h: Row, t: seq<Row>)
    ensures Labels([h] + t) == {h.monthYear} + Labels(t)
  {
    forall l | l in Labels([h] + t) ensures l in {h.monthYear} + Labels(t) {
      var r :| r in [h] + t && r.monthYear == l;
      assert r == h || r in t;
    }
    forall l | l in {h.monthYear} + Labels(t) ensures l in Labels([h] + t) {
      if l == h.monthYear { assert h in [h] + t; }
      else { var r :| r in t && r.monthYear == l; assert r in [h] + t; }
    }
  }

  /** The table after counting one more surviving record with label `l` and outcome type `o`. */
  function Tally(rows: seq<Row>, l: string, o: string): (r: seq<Row>)
    requires AllWellFormed(rows) && WellFormed(l)
    ensures AllWellFormed(r)
  {
    if rows == [] then [Row(l, 0, 0, 0, 0).Bump(o)]
    else if rows[0].monthYear == l then [rows[0].Bump(o)] + rows[1..]
    else if SortKey(l) < SortKey(rows[0].monthYear) then [Row(l, 0, 0, 0, 0).Bump(o)] + rows
    else [rows[0]] + Tally(rows[1..], l, o)
  }

  lemma AscendingTail(rows: seq<Row>)
    requires Ascending(rows) && rows != []
    ensures Ascending(rows[1..])
  {
    forall r | r in rows[1..] ensures r in rows { }
  }

  /** Counting one record adds its label to the table's labels. */
  lemma {:induction false} TallyLabels(rows: seq<Row>, l: string, o: string)
    requires AllWellFormed(rows) && WellFormed(l)
    ensures Labels(Tally(rows, l, o)) == Labels(rows) + {l}
  {
    var created := Row(l, 0, 0, 0, 0).Bump(o);
    if rows == [] {
      LabelsCons(created, []);
    } else {
      assert rows == [rows[0]] + rows[1..];
      LabelsCons(rows[0], rows[1..]);
      if rows[0].monthYear == l {
        LabelsCons(rows[0].Bump(o), rows[1..]);
      } else if SortKey(l) < SortKey(rows[0].monthYear) {
        LabelsCons(created, rows);
      } else {
        assert forall x :: x in rows[1..] ==> x in rows;
        TallyLabels(rows[1..], l, o);
        LabelsCons(rows[0], Tally(rows[1..], l, o));
      }
    }
  }

  /** A label whose key is below every key of an ascending table is not in it. */
  lemma BelowAll(rows: seq<Row>, l: string)
    requires Ascending(rows) && rows != [] && WellFormed(l)
    requires SortKey(l) < SortKey(rows[0].monthYear)
    ensures l !in Labels(rows)
  {
    forall x | x in rows ensures x.monthYear != l {
      var j :| 0 <= j < |rows| && rows[j] == x;
      assert j == 0 || SortKey(rows[0].monthYear) < SortKey(x.monthYear);
    }
  }

  /** A row dated before every row of an ascending table can be put in front of it. */
  lemma AscendingCons(h: Row, t: seq<Row>)
    requires Ascending(t) && WellFormed(h.monthYear)
    requires forall x :: x in t ==> SortKey(h.monthYear) < SortKey(x.monthYear)
    ensures Ascending([h] + t)
  {
    var r := [h] + t;
    forall i, j | 0 <= i < j < |r| ensures SortKey(r[i].monthYear) < SortKey(r[j].monthYear) {
      assert r[j] == t[j - 1] && t[j - 1] in t;
      if i > 0 { assert r[i] == t[i - 1]; }
    }
  }

  /** Counting one record keeps the table in ascending date order. */
  lemma {:induction false} TallyAscending(rows: seq<Row>, l: string, o: string)
    requires Ascending(rows) && WellFormed(l)
    ensures Ascending(Tally(rows, l, o))
  {
    var created := Row(l, 0, 0, 0, 0).Bump(o);
    if rows == [] {
      AscendingCons(created, []);
    } else if rows[0].monthYear == l {
      AscendingTail(rows);
      forall x | x in rows[1..] ensures SortKey(l) < SortKey(x.monthYear) {
        var j :| 0 <= j < |rows[1..]| && rows[1..][j] == x;
        assert rows[j + 1] == x;
      }
      AscendingCons(rows[0].Bump(o), rows[1..]);
    } else if SortKey(l) < SortKey(rows[0].monthYear) {
      forall x | x in rows ensures SortKey(l) < SortKey(x.monthYear) {
        var j :| 0 <= j < |rows| && rows[j] == x;
        assert j == 0 || SortKey(rows[0].monthYear) < SortKey(x.monthYear);
      }
      AscendingCons(created, rows);
    } else {
      assert SortKey(rows[0].monthYear) < SortKey(l) by {
        if SortKey(l) == SortKey(rows[0].monthYear) { SortKeyInjective(l, rows[0].monthYear); }
      }
      var tail := rows[1..];
      AscendingTail(rows);
      TallyAscending(tail, l, o);
      TallyLabels(tail, l, o);
      var rest := Tally(tail, l, o);
      forall x | x in rest ensures SortKey(rows[0].monthYear) < SortKey(x.monthYear) {
        assert x.monthYear in Labels(tail) + {l};
        if x.monthYear != l {
          var y :| y in tail && y.monthYear == x.monthYear;
          var j :| 0 <= j < |tail| && tail[j] == y;
          assert rows[j + 1] == tail[j];
        }
      }
      AscendingCons(rows[0], rest);
    }
  }

  /** Counting one record adds one to the cell of its label and outcome column, and changes no other cell. */
  lemma {:induction false} TallyCounts(rows: seq<Row>, l: string, o: string)
    requires Ascending(rows) && WellFormed(l)
    ensures forall l', c :: CountIn(Tally(rows, l, o), l', c) == CountIn(rows, l', c) + (if l' == l && c.Name() == o then 1 else 0)
  {
    if rows != [] && rows[0].monthYear != l {
      if SortKey(l) < SortKey(rows[0].monthYear) {
        BelowAll(rows, l);
        forall c ensures CountIn(rows, l, c) == 0 { CountInAbsent(rows, l, c); }
      } else {
        AscendingTail(rows);
        TallyCounts(rows[1..], l, o);
      }
    }
  }

  /** The grouped, unstacked and date-ordered counts of the surviving records. */
  function Pivot(ls: seq<Labelled>): (rows: seq<Row>)
    requires forall x :: x in ls ==> WellFormed(x.monthYear)
    ensures Ascending(rows)
    ensures Labels(rows) == LabelsWithOutcome(ls)
    ensures forall l, c :: CountIn(rows, l, c) == Count(ls, l, c.Name())
  {
    if ls == [] then []
    else
      assert ls == [ls[0]] + ls[1..];
      assert multiset(ls) == multiset{ls[0]} + multiset(ls[1..]);
      assert forall x :: x in ls[1..] ==> x in ls;
      var rest := Pivot(ls[1..]);
      match ls[0].outcome
      case None =>
        assert LabelsWithOutcome(ls) == LabelsWithOutcome(ls[1..]);
        rest
      case Some(o) =>
        assert LabelsWithOutcome(ls) == LabelsWithOutcome(ls[1..]) + {ls[0].monthYear};
        TallyAscending(rest, ls[0].monthYear, o);
        TallyLabels(rest, ls[0].monthYear, o);
        TallyCounts(rest, ls[0].monthYear, o);
        Tally(rest, ls[0].monthYear, o)
  }

  /** In an ascending table, the count found for a row's own label is that row's count. */
  lemma {:induction false} CountInOwnRow(rows: seq<Row>, i: nat, c: Column)
    requires Ascending(rows) && i < |rows|
    ensures CountIn(rows, rows[i].monthYear, c) == rows[i].Get(c)
  {
    if i > 0 {
      assert SortKey(rows[0].monthYear) < SortKey(rows[i].monthYear);
      AscendingTail(rows);
      CountInOwnRow(rows[1..], i - 1, c);
    }
  }

  /** An ascending table has one row per label. */
  lemma {:induction false} OneRowPerLabel(rows: seq<Row>)
    requires Ascending(rows)
    ensures |Labels(rows)| == |rows|
  {
    if rows != [] {
      var h, t := rows[0], rows[1..];
      AscendingTail(rows);
      OneRowPerLabel(t);
      HeadNotInTail(rows);
      assert rows == [h] + t;
      LabelsCons(h, t);
      assert |{h.monthYear} + Labels(t)| == 1 + |Labels(t)|;
    }
  }

  lemma HeadNotInTail(rows: seq<Row>)
    requires Ascending(rows) && rows != []
    ensures rows[0].monthYear !in Labels(rows[1..])
  {
    forall x | x in rows[1..] ensures x.monthYear != rows[0].monthYear {
      var j :| 0 <= j < |rows[1..]| && rows[1..][j] == x;
      assert rows[j + 1] == x;
    }
  }

  /** The names of the columns in `cs` that are not among the `present` outcome types, in order. */
  function MissingNames(cs: seq<Column>, present: set<string>): (r: seq<string>)
    ensures forall c: Column :: c.Name() in r <==> c in cs && c.Name() !in present
    ensures forall n :: n in r ==> n !in present && exists c :: c in cs && c.Name() == n
    ensures r == [] <==> forall c :: c in cs ==> c.Name() in present
  {
    NamesInjective();
    if cs == [] then []
    else (if cs[0].Name() in present then [] else [cs[0].Name()]) + MissingNames(cs[1..], present)
  }

  /**
   * The whole aggregation: the counts table, or the KeyError the script
   * raises for a missing `datetime`, `animal_type` or `outcome_type` column
   * or for a kept outcome type that no surviving record has.
   */
  function Aggregate(rs: seq<Record>): (r: Result<seq<Row>, Failure>)
    ensures rs == [] ==> r == Err(MissingColumn("datetime"))
    ensures !HasDatetime(rs) ==> r == Err(MissingColumn("datetime"))
    ensures HasDatetime(rs) && !HasAnimalType(rs) ==> r == Err(MissingColumn("animal_type"))
    ensures HasDatetime(rs) && HasAnimalType(rs) && !HasOutcomeType(rs) ==> r == Err(MissingColumn("outcome_type"))
    ensures HasColumns(rs) && r.Err? ==> r.error.MissingOutcomes?
    ensures r.Ok? <==>
      && HasDatetime(rs) && HasAnimalType(rs) && HasOutcomeType(rs)
      && forall c: Column :: c.Name() in OutcomesOf(Survivors(rs))
    ensures r.Err? && r.error.MissingOutcomes? ==>
      && (forall c: Column :: c.Name() in r.error.outcomes <==> c.Name() !in OutcomesOf(Survivors(rs)))
      && (forall n :: n in r.error.outcomes ==> exists c: Column :: c.Name() == n)
    ensures r.Ok? ==> Ascending(r.value) && Labels(r.value) == LabelsWithOutcome(Survivors(rs))
    ensures r.Ok? ==> |r.value| == |LabelsWithOutcome(Survivors(rs))|
    ensures r.Ok? ==> forall i, c :: 0 <= i < |r.value| ==>
      r.value[i].Get(c) == Count(Survivors(rs), r.value[i].monthYear, c.Name())
  {
    if !HasDatetime(rs) then Err(MissingColumn("datetime"))
    else if !HasAnimalType(rs) then Err(MissingColumn("animal_type"))
    else if !HasOutcomeType(rs) then Err(MissingColumn("outcome_type"))
    else
      var ls := Survivors(rs);
      var missing := MissingNames(Kept, OutcomesOf(ls));
      assert forall c :: c in Kept;
      if missing != [] then Err(MissingOutcomes(missing))
      else
        var rows := Pivot(ls);
        OneRowPerLabel(rows);
        assert forall i, c :: 0 <= i < |rows| ==> rows[i].Get(c) == Count(ls, rows[i].monthYear, c.Name()) by {
          forall i, c | 0 <= i < |rows| ensures rows[i].Get(c) == Count(ls, rows[i].monthYear, c.Name()) {
            CountInOwnRow(rows, i, c);
          }
        }
        Ok(rows)
  }
  lemma {:induction false} SurvivorsAppend(a: seq<Record>, b: seq<Record>)
    ensures Survivors(a + b) == Survivors(a) + Survivors(b)
  {
    if a != [] {
      assert (a + b)[1..] == a[1..] + b;
      SurvivorsAppend(a[1..], b);
    } else {
      assert a + b == b;
    }
  }

  /** Every surviving entry comes from a fetched record that survives the filters. */
  lemma {:induction false} SurvivorOrigin(rs: seq<Record>, y: Labelled)
    requires y in Survivors(rs)
    ensures exists r :: r in rs && Survives(r) && y == LabelOf(r)
  {
    if Survives(rs[0]) && y == LabelOf(rs[0]) {
      assert rs[0] in rs;
    } else {
      assert y in Survivors(rs[1..]);
      SurvivorOrigin(rs[1..], y);
      var r :| r in rs[1..] && Survives(r) && y == LabelOf(r);
      assert r in rs;
    }
  }

  /** A surviving record with an outcome type shows that all three columns the script indexes exist. */
  lemma {:induction false} SurvivorWitness(rs: seq<Record>, y: Labelled)
    requires y in Survivors(rs) && y.outcome.Some?
    ensures HasDatetime(rs) && HasAnimalType(rs) && HasOutcomeType(rs)
  {
    if Survives(rs[0]) && y == LabelOf(rs[0]) {
      assert !rs[0].datetime.Absent? && rs[0].animalType.Some? && rs[0].outcomeType.Some?;
    } else {
      assert y in Survivors(rs[1..]);
      SurvivorWitness(rs[1..], y);
      var a :| 0 <= a < |rs[1..]| && !rs[1..][a].datetime.Absent?;
      var b :| 0 <= b < |rs[1..]| && rs[1..][b].animalType.Some?;
      var c :| 0 <= c < |rs[1..]| && rs[1..][c].outcomeType.Some?;
      assert rs[a + 1] == rs[1..][a] && rs[b + 1] == rs[1..][b] && rs[c + 1] == rs[1..][c];
    }
  }

  predicate HasColumns(rs: seq<Record>) {
    HasDatetime(rs) && HasAnimalType(rs) && HasOutcomeType(rs)
  }

  /** Once the three columns exist, the table depends only on the surviving records. */
  lemma SameSurvivorsSameTable(a: seq<Record>, b: seq<Record>)
    requires HasColumns(a) && HasColumns(b) && Survivors(a) == Survivors(b)
    ensures Aggregate(a) == Aggregate(b)
  {
  }

  /** Inserting a record keeps every column that already existed. */
  lemma InsertKeepsColumns(rs: seq<Record>, i: nat, x: Record)
    requires i <= |rs| && HasColumns(rs)
    ensures HasColumns(rs[..i] + [x] + rs[i..])
  {
    var more := rs[..i] + [x] + rs[i..];
    assert forall j :: 0 <= j < |rs| ==> rs[j] == more[if j < i then j else j + 1];
  }

  /**
   * A record whose timestamp does not parse, or that is not a dog, counts
   * nowhere: adding it anywhere leaves the surviving records unchanged, and a
   * table built with or without it is the same table.
   */
  lemma NonSurvivorIgnored(rs: seq<Record>, i: nat, x: Record)
    requires i <= |rs| && !Survives(x)
    ensures Survivors(rs[..i] + [x] + rs[i..]) == Survivors(rs)
    ensures Aggregate(rs).Ok? ==> Aggregate(rs[..i] + [x] + rs[i..]) == Aggregate(rs)
    ensures Aggregate(rs[..i] + [x] + rs[i..]).Ok? ==> Aggregate(rs[..i] + [x] + rs[i..]) == Aggregate(rs)
  {
    var more := rs[..i] + [x] + rs[i..];
    InsertNonSurvivor(rs, i, x);
    if HasColumns(rs) {
      InsertKeepsColumns(rs, i, x);
      SameSurvivorsSameTable(more, rs);
    } else if Aggregate(more).Ok? {
      var y := KeptWitness(more);
      SurvivorWitness(rs, y);
    }
  }

  lemma {:induction false} InsertNonSurvivor(rs: seq<Record>, i: nat, x: Record)
    requires i <= |rs| && !Survives(x)
    ensures Survivors(rs[..i] + [x] + rs[i..]) == Survivors(rs)
  {
    var a, b := rs[..i], rs[i..];
    assert Survivors([x]) == [] by {
      assert [x][1..] == [];
    }
    SurvivorsAppend(a, [x]);
    assert Survivors(a + [x]) == Survivors(a);
    SurvivorsAppend(a + [x], b);
    SurvivorsAppend(a, b);
    assert a + b == rs;
  }

  /**
   * A record whose timestamp parses and that is a dog is counted: inserting it
   * anywhere inserts its label and outcome type at the same place among the
   * surviving records, and adds exactly one such entry.
   */
  lemma {:induction false} InsertSurvivor(rs: seq<Record>, i: nat, x: Record)
    requires i <= |rs| && Survives(x)
    ensures Survivors(rs[..i] + [x] + rs[i..]) == Survivors(rs[..i]) + [LabelOf(x)] + Survivors(rs[i..])
    ensures multiset(Survivors(rs[..i] + [x] + rs[i..])) == multiset(Survivors(rs)) + multiset{LabelOf(x)}
  {
    var a, b := rs[..i], rs[i..];
    var sa, sb, y := Survivors(a), Survivors(b), LabelOf(x);
    assert Survivors([x]) == [y] by {
      assert [x][1..] == [];
    }
    SurvivorsAppend(a, [x]);
    assert Survivors(a + [x]) == sa + [y];
    SurvivorsAppend(a + [x], b);
    assert Survivors(a + [x] + b) == sa + [y] + sb;
    SurvivorsAppend(a, b);
    assert a + b == rs;
    assert Survivors(rs) == sa + sb;
    assert multiset(sa + [y] + sb) == multiset(sa) + multiset{y} + multiset(sb);
    assert multiset(sa + sb) == multiset(sa) + multiset(sb);
  }

  /** A table that aggregates has a surviving record with an outcome type. */
  lemma KeptWitness(rs: seq<Record>) returns (y: Labelled)
    requires Aggregate(rs).Ok?
    ensures y in Survivors(rs) && y.outcome.Some?
  {
    assert Adoption.Name() in OutcomesOf(Survivors(rs));
    y :| y in Survivors(rs) && y.outcome.Some? && y.outcome.value == Adoption.Name();
  }

  /** One of the four outcome types the table keeps. */
  predicate IsKept(o: string) {
    o == Adoption.Name() || o == Transfer.Name() || o == Euthanasia.Name() || o == ReturnToOwner.Name()
  }

  /** The number of surviving records with this label whose outcome type is a kept one. */
  function KeptInMonth(ls: seq<Labelled>, monthYear: string): nat {
    if ls == [] then 0
    else
      var x := ls[0];
      (if x.monthYear == monthYear && x.outcome.Some? && IsKept(x.outcome.value) then 1 else 0)
        + KeptInMonth(ls[1..], monthYear)
  }

  /** The four kept counts of a month add up to the month's records with a kept outcome type. */
  lemma {:induction false} KeptCountsAreKeptInMonth(ls: seq<Labelled>, m: string)
    ensures Count(ls, m, Adoption.Name()) + Count(ls, m, Transfer.Name())
          + Count(ls, m, Euthanasia.Name()) + Count(ls, m, ReturnToOwner.Name()) == KeptInMonth(ls, m)
  {
    if ls != [] {
      assert ls == [ls[0]] + ls[1..];
      assert multiset(ls) == multiset{ls[0]} + multiset(ls[1..]);
      NamesInjective();
      KeptCountsAreKeptInMonth(ls[1..], m);
    }
  }

  /** Records of four distinct outcome types in one month are never more than the month's records. */
  lemma {:induction false} KeptCountsWithinMonth(ls: seq<Labelled>, m: string)
    ensures Count(ls, m, Adoption.Name()) + Count(ls, m, Transfer.Name())
          + Count(ls, m, Euthanasia.Name()) + Count(ls, m, ReturnToOwner.Name()) <= InMonth(ls, m)
  {
    if ls != [] {
      assert ls == [ls[0]] + ls[1..];
      assert multiset(ls) == multiset{ls[0]} + multiset(ls[1..]);
      KeptCountsWithinMonth(ls[1..], m);
    }
  }
}
