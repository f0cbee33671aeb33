/**
 * The per-subject attendance counters that the student attendance tab and the
 * dashboard chart both build with `forEach`: a dictionary from the subject
 * (missing subjects under 'Unknown') to how many records it has and how many
 * of them are 'present' ignoring case. The dictionary is a list of entries
 * in the order their keys were first inserted.
 */
module SubjectTally {

  import opened Strings
  import opened Seqs

  /**
   * An attendance row: the subject ("" when missing), the long month name of
   * its date, which the caller computes, and the status.
   */
  datatype AttendanceRow = AttendanceRow(subject: string, month: string, status: string)

  /** `record.subject || 'Unknown'` */
  function SubjectKey(r: AttendanceRow): (k: string)
    ensures r.subject == "" ==> k == "Unknown"
    ensures r.subject != "" ==> k == r.subject
  {
    if r.subject == "" then "Unknown" else r.subject
  }

  /** `status.toLowerCase() === 'present'` */
  predicate IsPresent(r: AttendanceRow)
  {
    Lower(r.status) == "present"
  }

  /** One dictionary entry: `{ present, total }` under its subject. */
  datatype Counts = Counts(subject: string, present: nat, total: nat)

  function Subjects(ts: seq<Counts>): (r: seq<string>)
    ensures |r| == |ts|
    ensures forall i :: 0 <= i < |ts| ==> r[i] == ts[i].subject
  {
    if ts == [] then [] else [ts[0].subject] + Subjects(ts[1..])
  }

  /** One step of the `forEach`: create the entry if needed, then count the record. */
  function Bump(ts: seq<Counts>, key: string, present: bool): (r: seq<Counts>)
  {
    if ts == [] then [Counts(key, if present then 1 else 0, 1)]
    else if ts[0].subject == key then [ts[0].(present := ts[0].present + (if present then 1 else 0), total := ts[0].total + 1)] + ts[1..]
    else [ts[0]] + Bump(ts[1..], key, present)
  }

  /** The dictionary after the `forEach` over `rows`. */
  function TallyOf(rows: seq<AttendanceRow>): seq<Counts>
  {
    if rows == [] then []
    else
      var last := rows[|rows| - 1];
      Bump(TallyOf(rows[..|rows| - 1]), SubjectKey(last), IsPresent(last))
  }

  /** The `forEach` itself. */
  method Tally(rows: seq<AttendanceRow>) returns (ts: seq<Counts>)
    ensures ts == TallyOf(rows)
  {
    ts := [];
    var i := 0;
    while i < |rows|
      invariant 0 <= i <= |rows|
      invariant ts == TallyOf(rows[..i])
    {
      assert rows[..i + 1][..i] == rows[..i];
      ts := Bump(ts, SubjectKey(rows[i]), IsPresent(rows[i]));
      i := i + 1;
    }
    assert rows[..|rows|] == rows;
  }

  // ---------------------------------------------------------------------------
  // Keys: one entry per distinct subject, in first-seen order
  // ---------------------------------------------------------------------------

  lemma {:induction false} BumpSubjects(ts: seq<Counts>, key: string, present: bool)
    ensures Subjects(Bump(ts, key, present)) == if key in Subjects(ts) then Subjects(ts) else Subjects(ts) + [key]
  {
    if ts != [] && ts[0].subject != key {
      BumpSubjects(ts[1..], key, present);
      assert Subjects(ts) == [ts[0].subject] + Subjects(ts[1..]);
    } else if ts != [] {
      assert Bump(ts, key, present)[1..] == ts[1..];
    }
  }

  lemma MapPrefix<T, U>(s: seq<T>, f: T -> U)
    requires s != []
    ensures Map(s, f)[..|s| - 1] == Map(s[..|s| - 1], f)
    ensures Map(s, f) == Map(s[..|s| - 1], f) + [f(s[|s| - 1])]
  {
  }

  /** The dictionary's keys are the distinct subject keys, in the order they first occur. */
  lemma {:induction false} TallySubjects(rows: seq<AttendanceRow>)
    ensures Subjects(TallyOf(rows)) == Distinct(Map(rows, SubjectKey))
  {
    if rows != [] {
      var init := rows[..|rows| - 1];
      var last := rows[|rows| - 1];
      TallySubjects(init);
      BumpSubjects(TallyOf(init), SubjectKey(last), IsPresent(last));
      MapPrefix(rows, SubjectKey);
    }
  }

  // ---------------------------------------------------------------------------
  // Counts: each entry counts exactly the records of its subject
  // ---------------------------------------------------------------------------

  /** The records counted under `key`. */
  function HasKey(key: string): AttendanceRow -> bool
  {
    r => SubjectKey(r) == key
  }

  /** The 'present' records counted under `key`. */
  function PresentWithKey(key: string): AttendanceRow -> bool
  {
    r => SubjectKey(r) == key && IsPresent(r)
  }

  /** Every entry's counters are the counts of its own records in `rows`. */
  predicate CountsMatch(ts: seq<Counts>, rows: seq<AttendanceRow>)
  {
    forall i :: 0 <= i < |ts| ==>
      ts[i].total == Count(rows, HasKey(ts[i].subject)) &&
      ts[i].present == Count(rows, PresentWithKey(ts[i].subject))
  }

  lemma CountSnoc<T>(s: seq<T>, x: T, p: T -> bool)
    ensures Count(s + [x], p) == Count(s, p) + if p(x) then 1 else 0
  {
    CountAppend(s, [x], p);
    assert [x][1..] == [];
    assert Filter([x], p) == if p(x) then [x] else [];
  }

  /** An entry whose subject occurs nowhere in the tally counts nothing. */
  lemma {:induction false} CountAbsentKey(rows: seq<AttendanceRow>, key: string)
    requires key !in Map(rows, SubjectKey)
    ensures Count(rows, HasKey(key)) == 0 && Count(rows, PresentWithKey(key)) == 0
  {
    if rows != [] {
      MapPrefix(rows, SubjectKey);
      CountAbsentKey(rows[..|rows| - 1], key);
      assert rows == rows[..|rows| - 1] + [rows[|rows| - 1]];
      CountSnoc(rows[..|rows| - 1], rows[|rows| - 1], HasKey(key));
      CountSnoc(rows[..|rows| - 1], rows[|rows| - 1], PresentWithKey(key));
    }
  }

  lemma BumpEntry(ts: seq<Counts>, key: string, present: bool, i: nat)
    requires i < |Bump(ts, key, present)|
    ensures i < |ts| ==> Bump(ts, key, present)[i].subject == ts[i].subject
    ensures i < |ts| && ts[i].subject != key ==> Bump(ts, key, present)[i] == ts[i]
    ensures i < |ts| && ts[i].subject == key && (forall j :: 0 <= j < i ==> ts[j].subject != key) ==>
              Bump(ts, key, present)[i] == ts[i].(present := ts[i].present + (if present then 1 else 0), total := ts[i].total + 1)
    ensures i < |ts| && ts[i].subject == key && (exists j :: 0 <= j < i && ts[j].subject == key) ==> Bump(ts, key, present)[i] == ts[i]
    ensures i >= |ts| ==> i == |ts| && key !in Subjects(ts) && Bump(ts, key, present)[i] == Counts(key, if present then 1 else 0, 1)
  {
    if i < |ts| {
      BumpOldEntry(ts, key, present, i);
    } else {
      BumpNewEntry(ts, key, present);
    }
  }

  /** An entry that was already there: counted when it is the key's first entry, kept otherwise. */
  lemma {:induction false} BumpOldEntry(ts: seq<Counts>, key: string, present: bool, i: nat)
    requires i < |ts|
    ensures i < |Bump(ts, key, present)|
    ensures Bump(ts, key, present)[i].subject == ts[i].subject
    ensures ts[i].subject != key ==> Bump(ts, key, present)[i] == ts[i]
    ensures ts[i].subject == key && (forall j :: 0 <= j < i ==> ts[j].subject != key) ==>
              Bump(ts, key, present)[i] == ts[i].(present := ts[i].present + (if present then 1 else 0), total := ts[i].total + 1)
    ensures (exists j :: 0 <= j < i && ts[j].subject == key) ==> Bump(ts, key, present)[i] == ts[i]
  {
    var r := Bump(ts, key, present);
    if ts[0].subject == key {
      assert r == [ts[0].(present := ts[0].present + (if present then 1 else 0), total := ts[0].total + 1)] + ts[1..];
    } else {
      var rest := ts[1..];
      var t := Bump(rest, key, present);
      assert r == [ts[0]] + t;
      if i > 0 {
        BumpOldEntry(rest, key, present, i - 1);
        assert r[i] == t[i - 1] && rest[i - 1] == ts[i];
        if exists j :: 0 <= j < i && ts[j].subject == key {
          var j :| 0 <= j < i && ts[j].subject == key;
          assert rest[j - 1].subject == key;
        } else {
          assert forall j :: 0 <= j < i - 1 ==> rest[j] == ts[j + 1];
        }
      }
    }
  }

  /** A key that had no entry gets a new last entry counting the one record. */
  lemma {:induction false} BumpNewEntry(ts: seq<Counts>, key: string, present: bool)
    requires |Bump(ts, key, present)| > |ts|
    ensures |Bump(ts, key, present)| == |ts| + 1 && key !in Subjects(ts)
    ensures Bump(ts, key, present)[|ts|] == Counts(key, if present then 1 else 0, 1)
  {
    if ts != [] {
      var rest := ts[1..];
      var t := Bump(rest, key, present);
      assert ts[0].subject != key;
      assert Bump(ts, key, present) == [ts[0]] + t;
      BumpNewEntry(rest, key, present);
      assert Subjects(ts) == [ts[0].subject] + Subjects(rest);
    }
  }

  /** The keys of a tally are distinct. */
  lemma TallyNoDuplicates(rows: seq<AttendanceRow>)
    ensures NoDuplicates(Subjects(TallyOf(rows)))
  {
    TallySubjects(rows);
  }

  /** Counting one more record keeps every entry's counters exact. */
  lemma BumpCountsMatch(ts: seq<Counts>, rows: seq<AttendanceRow>, x: AttendanceRow)
    requires CountsMatch(ts, rows)
    requires NoDuplicates(Subjects(ts))
    requires forall k :: k in Map(rows, SubjectKey) ==> k in Subjects(ts)
    ensures CountsMatch(Bump(ts, SubjectKey(x), IsPresent(x)), rows + [x])
  {
    var key := SubjectKey(x);
    var r := Bump(ts, key, IsPresent(x));
    forall i | 0 <= i < |r|
      ensures r[i].total == Count(rows + [x], HasKey(r[i].subject))
      ensures r[i].present == Count(rows + [x], PresentWithKey(r[i].subject))
    {
      BumpEntry(ts, key, IsPresent(x), i);
      CountSnoc(rows, x, HasKey(r[i].subject));
      CountSnoc(rows, x, PresentWithKey(r[i].subject));
      if i < |ts| && ts[i].subject == key {
        forall j | 0 <= j < i ensures ts[j].subject != key {
          assert Subjects(ts)[j] != Subjects(ts)[i];
        }
      } else if i >= |ts| {
        CountAbsentKey(rows, key);
      }
    }
  }

  /** Every entry counts exactly the records of its subject, and the present ones among them. */
  lemma {:induction false} TallyCounts(rows: seq<AttendanceRow>)
    ensures CountsMatch(TallyOf(rows), rows)
  {
    if rows != [] {
      var init := rows[..|rows| - 1];
      var last := rows[|rows| - 1];
      TallyCounts(init);
      TallySubjects(init);
      MapPrefix(rows, SubjectKey);
      assert rows == init + [last];
      BumpCountsMatch(TallyOf(init), init, last);
    }
  }

  lemma {:induction false} CountImplies(rows: seq<AttendanceRow>, key: string)
    ensures Count(rows, PresentWithKey(key)) <= Count(rows, HasKey(key))
  {
    if rows != [] {
      CountImplies(rows[..|rows| - 1], key);
      assert rows == rows[..|rows| - 1] + [rows[|rows| - 1]];
      CountSnoc(rows[..|rows| - 1], rows[|rows| - 1], HasKey(key));
      CountSnoc(rows[..|rows| - 1], rows[|rows| - 1], PresentWithKey(key));
    }
  }

  /** No subject has more presents than records, and every entry has at least one record. */
  lemma TallyBounds(rows: seq<AttendanceRow>)
    ensures forall i :: 0 <= i < |TallyOf(rows)| ==> TallyOf(rows)[i].present <= TallyOf(rows)[i].total
    ensures forall i :: 0 <= i < |TallyOf(rows)| ==> TallyOf(rows)[i].total >= 1
  {
    var ts := TallyOf(rows);
    TallyCounts(rows);
    TallySubjects(rows);
    forall i | 0 <= i < |ts| ensures ts[i].present <= ts[i].total && ts[i].total >= 1 {
      CountImplies(rows, ts[i].subject);
      assert Subjects(ts)[i] in Map(rows, SubjectKey);
      var k :| 0 <= k < |rows| && SubjectKey(rows[k]) == ts[i].subject;
      CountWitness(rows, HasKey(ts[i].subject), k);
    }
  }

  lemma {:induction false} CountWitness<T>(s: seq<T>, p: T -> bool, k: nat)
    requires k < |s| && p(s[k])
    ensures Count(s, p) >= 1
  {
    if k > 0 {
      CountWitness(s[1..], p, k - 1);
    }
  }

  // ---------------------------------------------------------------------------
  // Totals over all entries
  // ---------------------------------------------------------------------------

  function TotalOf(ts: seq<Counts>): nat
  {
    if ts == [] then 0 else ts[0].total + TotalOf(ts[1..])
  }

  function PresentOf(ts: seq<Counts>): nat
  {
    if ts == [] then 0 else ts[0].present + PresentOf(ts[1..])
  }

  lemma {:induction false} BumpTotals(ts: seq<Counts>, key: string, present: bool)
    ensures TotalOf(Bump(ts, key, present)) == TotalOf(ts) + 1
    ensures PresentOf(Bump(ts, key, present)) == PresentOf(ts) + if present then 1 else 0
  {
    if ts != [] && ts[0].subject != key {
      BumpTotals(ts[1..], key, present);
    } else if ts != [] {
      assert Bump(ts, key, present)[1..] == ts[1..];
    }
  }

  /** The per-subject totals add up to the number of records, the presents to the present ones. */
  lemma {:induction false} TallyTotals(rows: seq<AttendanceRow>)
    ensures TotalOf(TallyOf(rows)) == |rows|
    ensures PresentOf(TallyOf(rows)) == Count(rows, IsPresent)
  {
    if rows != [] {
      var init := rows[..|rows| - 1];
      var last := rows[|rows| - 1];
      TallyTotals(init);
      BumpTotals(TallyOf(init), SubjectKey(last), IsPresent(last));
      assert rows == init + [last];
      CountSnoc(init, last, IsPresent);
    }
  }

  // ---------------------------------------------------------------------------
  // Percentages
  // ---------------------------------------------------------------------------

  /** `total > 0 ? (present / total) * 100 : 0` */
  function Percentage(present: nat, total: nat): (r: real)
    ensures total == 0 ==> r == 0.0
    ensures total > 0 ==> r * total as real == 100.0 * present as real
    ensures present <= total ==> 0.0 <= r <= 100.0
  {
    if total > 0 then present as real / total as real * 100.0 else 0.0
  }

  /** `Math.round((present / total) * 100)`, or 0 for no records: the nearest whole percent, halves up. */
  function RoundedPercentage(present: nat, total: nat): (r: nat)
    ensures total == 0 ==> r == 0
    ensures total > 0 ==> 2 * total * r <= 200 * present + total < 2 * total * (r + 1)
    ensures present <= total ==> r <= 100
  {
    if total > 0 then
      RoundedBounds(present, total);
      (200 * present + total) / (2 * total)
    else 0
  }

  /** The integer division behind the rounding, with its bounds. */
  lemma RoundedBounds(present: nat, total: nat)
    requires total > 0
    ensures 2 * total * ((200 * present + total) / (2 * total)) <= 200 * present + total
    ensures 200 * present + total < 2 * total * ((200 * present + total) / (2 * total) + 1)
    ensures present <= total ==> (200 * present + total) / (2 * total) <= 100
  {
    var n := 200 * present + total;
    var d := 2 * total;
    var r := n / d;
    assert d * r + n % d == n;
    assert d * (r + 1) == d * r + d;
    if present <= total {
      assert d * r < d * 101;
      MulCancel(d, r, 101);
    }
  }

  lemma MulCancel(d: nat, a: nat, b: nat)
    requires d > 0 && d * a < d * b
    ensures a < b
  {
    assert d * b - d * a == d * (b - a);
  }
}
