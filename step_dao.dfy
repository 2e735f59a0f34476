/**
 * The Room table `steps`: one row `StepEntry(date, steps)` per primary key `date`, and
 * the queries of `StepDao`. The table is a map from date key to step count; a map
 * cannot hold two rows with one key, which is what the primary key guarantees.
 */
module StepDao {
  import opened Wrappers
  import opened JavaText
  import Dates

  datatype StepEntry = StepEntry(date: string, steps: int)

  type Table = map<string, int>

  /** `insert` with `OnConflictStrategy.REPLACE`: the row for `e.date` becomes `e`. */
  class StepStore {
    var rows: Table

    constructor ()
      ensures rows == map[]
    {
      rows := map[];
    }

    method Insert(e: StepEntry)
      modifies this
      ensures rows == old(rows)[e.date := e.steps]
      ensures e.date in rows && rows[e.date] == e.steps
      ensures forall d :: d != e.date ==> (d in rows <==> d in old(rows)) && (d in rows ==> rows[d] == old(rows)[d])
    {
      rows := rows[e.date := e.steps];
    }
  }

  /** `getStepsByDate(date)`: the row with that key, or `null` (`None`). */
  function GetStepsByDate(t: Table, date: string): (r: Option<StepEntry>)
    ensures r.Some? <==> date in t
    ensures r.Some? ==> r.value == StepEntry(date, t[date])
  {
    if date in t then Some(StepEntry(date, t[date])) else None
  }

  /** After an upsert, the looked-up row for that date is the new one and every other lookup is as before. */
  lemma GetAfterInsert(t: Table, e: StepEntry, date: string)
    ensures GetStepsByDate(t[e.date := e.steps], date)
         == if date == e.date then Some(e) else GetStepsByDate(t, date)
  {
  }

  // ---------------------------------------------------------------------------
  // ORDER BY date

  /** `k` is the smallest of `keys`. */
  predicate IsLeast(k: string, keys: set<string>) {
    k in keys && forall j :: j in keys && j != k ==> LexLess(k, j)
  }

  lemma {:induction false} LeastExists(keys: set<string>)
    requires keys != {}
    ensures exists k :: IsLeast(k, keys)
    decreases keys
  {
    var x :| x in keys;
    if keys != {x} {
      LeastExists(keys - {x});
      var m :| IsLeast(m, keys - {x});
      if LexLess(m, x) {
        assert IsLeast(m, keys);
      } else {
        LexTotal(m, x);
        forall j | j in keys && j != x
          ensures LexLess(x, j)
        {
          if j != m {
            LexTransitive(x, m, j);
          }
        }
        assert IsLeast(x, keys);
      }
    } else {
      assert IsLeast(x, keys);
    }
  }

  lemma LeastUnique(keys: set<string>)
    ensures forall k1, k2 :: IsLeast(k1, keys) && IsLeast(k2, keys) ==> k1 == k2
  {
    forall k1, k2 | IsLeast(k1, keys) && IsLeast(k2, keys)
      ensures k1 == k2
    {
      if k1 != k2 {
        LexAsymmetric(k1, k2);
      }
    }
  }

  /** The keys in ascending order, each once. */
  function SortedKeys(keys: set<string>): (r: seq<string>)
    ensures |r| == |keys|
    ensures forall i :: 0 <= i < |r| ==> r[i] in keys
    ensures forall k :: k in keys ==> k in r
    ensures forall i, j :: 0 <= i < j < |r| ==> LexLess(r[i], r[j])
    decreases keys
  {
    if keys == {} then []
    else
      LeastExists(keys);
      LeastUnique(keys);
      var k :| IsLeast(k, keys);
      [k] + SortedKeys(keys - {k})
  }

  /** `getAll()`: every row, in ascending key order. */
  function GetAll(t: Table): (r: seq<StepEntry>)
    ensures |r| == |t|
    ensures forall i :: 0 <= i < |r| ==> r[i].date in t && r[i].steps == t[r[i].date]
    ensures forall d :: d in t ==> StepEntry(d, t[d]) in r
    ensures forall i, j :: 0 <= i < j < |r| ==> LexLess(r[i].date, r[j].date)
  {
    var ks := SortedKeys(t.Keys);
    assert |t.Keys| == |t|;
    var r := seq(|ks|, i requires 0 <= i < |ks| => StepEntry(ks[i], t[ks[i]]));
    assert forall d :: d in t ==> StepEntry(d, t[d]) in r by {
      forall d | d in t
        ensures StepEntry(d, t[d]) in r
      {
        var i :| 0 <= i < |ks| && ks[i] == d;
        assert r[i] == StepEntry(d, t[d]);
      }
    }
    r
  }

  /** The elements of `s` in the opposite order. */
  function Reversed<T>(s: seq<T>): (r: seq<T>)
    ensures |r| == |s|
    ensures forall i :: 0 <= i < |s| ==> r[i] == s[|s| - 1 - i]
  {
    if s == [] then [] else Reversed(s[1..]) + [s[0]]
  }

  /** Reversing keeps the elements. */
  lemma ReversedKeepsElements<T>(s: seq<T>)
    ensures forall x :: x in s ==> x in Reversed(s)
  {
    var r := Reversed(s);
    forall x | x in s
      ensures x in r
    {
      var i :| 0 <= i < |s| && s[i] == x;
      assert r[|s| - 1 - i] == x;
    }
  }

  /** Reversing rows that agree with table `t` gives rows that agree with it. */
  lemma ReversedAgrees(t: Table, asc: seq<StepEntry>)
    requires forall i :: 0 <= i < |asc| ==> asc[i].date in t && asc[i].steps == t[asc[i].date]
    ensures forall i :: 0 <= i < |asc| ==> Reversed(asc)[i].date in t && Reversed(asc)[i].steps == t[Reversed(asc)[i].date]
  {
    var r, n := Reversed(asc), |asc|;
    forall i | 0 <= i < n
      ensures r[i].date in t && r[i].steps == t[r[i].date]
    {
      var e := asc[n - 1 - i];
      assert r[i] == e;
    }
  }

  /** Reversing a sequence ordered by `less` orders it the other way. */
  lemma ReversedOrder<T>(s: seq<T>, less: (T, T) -> bool)
    requires forall i, j :: 0 <= i < j < |s| ==> less(s[i], s[j])
    ensures forall i, j :: 0 <= i < j < |s| ==> less(Reversed(s)[j], Reversed(s)[i])
  {
    var r, n := Reversed(s), |s|;
    forall i, j | 0 <= i < j < n
      ensures less(r[j], r[i])
    {
      assert r[j] == s[n - 1 - j] && r[i] == s[n - 1 - i];
    }
  }

  /** Reversing rows in ascending key order gives them in descending key order. */
  lemma ReversedDescends(asc: seq<StepEntry>)
    requires forall i, j :: 0 <= i < j < |asc| ==> LexLess(asc[i].date, asc[j].date)
    ensures forall i, j :: 0 <= i < j < |asc| ==> LexLess(Reversed(asc)[j].date, Reversed(asc)[i].date)
  {
    var byDate := (x: StepEntry, y: StepEntry) => LexLess(x.date, y.date);
    assert forall i, j :: 0 <= i < j < |asc| ==> byDate(asc[i], asc[j]);
    ReversedOrder(asc, byDate);
  }

  /** `getAllSteps()`: every row, in descending key order. */
  function GetAllSteps(t: Table): (r: seq<StepEntry>)
    ensures |r| == |t|
    ensures forall i :: 0 <= i < |r| ==> r[i].date in t && r[i].steps == t[r[i].date]
    ensures forall d :: d in t ==> StepEntry(d, t[d]) in r
    ensures forall i, j :: 0 <= i < j < |r| ==> LexLess(r[j].date, r[i].date)
  {
    var asc := GetAll(t);
    ReversedAgrees(t, asc);
    ReversedKeepsElements(asc);
    ReversedDescends(asc);
    Reversed(asc)
  }

  /**
   * `getLast7Days()`: `ORDER BY date DESC LIMIT 7`, the rows with the (up to) seven largest
   * keys, largest first. Every row left out has a smaller key than every row returned.
   */
  function GetLast7Days(t: Table): (r: seq<StepEntry>)
    ensures |r| == if |t| < 7 then |t| else 7
    ensures forall i :: 0 <= i < |r| ==> r[i].date in t && r[i].steps == t[r[i].date]
    ensures forall i, j :: 0 <= i < j < |r| ==> LexLess(r[j].date, r[i].date)
    ensures forall d :: d in t ==>
              StepEntry(d, t[d]) in r || forall i :: 0 <= i < |r| ==> LexLess(d, r[i].date)
  {
    var all := GetAllSteps(t);
    var n := if |all| < 7 then |all| else 7;
    PrefixOfDescending(t, all, n);
    all[..n]
  }

  /** A prefix of the descending rows keeps their properties, and every row past it is smaller. */
  lemma PrefixOfDescending(t: Table, all: seq<StepEntry>, n: nat)
    requires n <= |all|
    requires forall i :: 0 <= i < |all| ==> all[i].date in t && all[i].steps == t[all[i].date]
    requires forall d :: d in t ==> StepEntry(d, t[d]) in all
    requires forall i, j :: 0 <= i < j < |all| ==> LexLess(all[j].date, all[i].date)
    ensures forall i :: 0 <= i < n ==> all[..n][i].date in t && all[..n][i].steps == t[all[..n][i].date]
    ensures forall i, j :: 0 <= i < j < n ==> LexLess(all[..n][j].date, all[..n][i].date)
    ensures forall d :: d in t ==>
              StepEntry(d, t[d]) in all[..n] || forall i :: 0 <= i < n ==> LexLess(d, all[..n][i].date)
  {
    var r := all[..n];
    assert forall i :: 0 <= i < n ==> r[i] == all[i];
    forall d | d in t && StepEntry(d, t[d]) !in r
      ensures forall i :: 0 <= i < n ==> LexLess(d, r[i].date)
    {
      var k :| 0 <= k < |all| && all[k] == StepEntry(d, t[d]);
      forall i | 0 <= i < n
        ensures LexLess(d, r[i].date)
      {
        assert i < k;
        assert LexLess(all[k].date, all[i].date);
      }
    }
  }

  /**
   * With every key a `yyyy-MM-dd` key of a four-digit-year date, `getLast7Days` returns the
   * most recent recorded days: any recorded day it leaves out is earlier than each day it returns.
   */
  lemma Last7DaysAreMostRecent(t: Table, left: Dates.Date, kept: nat)
    requires Dates.InKeyRange(left) && Dates.Format(left) in t
    requires forall k :: k in t ==> exists d: Dates.Date :: Dates.InKeyRange(d) && k == Dates.Format(d)
    requires kept < |GetLast7Days(t)|
    requires StepEntry(Dates.Format(left), t[Dates.Format(left)]) !in GetLast7Days(t)
    ensures exists d: Dates.Date :: Dates.InKeyRange(d) && GetLast7Days(t)[kept].date == Dates.Format(d)
                                    && Dates.Before(left, d)
  {
    var r := GetLast7Days(t);
    var key := r[kept].date;
    assert key in t;
    var d: Dates.Date :| Dates.InKeyRange(d) && key == Dates.Format(d);
    assert LexLess(Dates.Format(left), key);
    Dates.FormatOrderIsChronological(left, d);
  }
}
