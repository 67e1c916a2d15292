/** The read-only views over the transaction log: the per-type history
    tables, newest Date first, and the Paju-outbound summary, the negated sum
    of Change per (ISBN, Title) over the OUT-PAJU records. */
module Views {
  import opened Records

  /** The records of the given type, in log order (the filter on Type):
      every record of that type as often as the log has it, and no other. */
  function OfType(log: seq<Txn>, tag: string): (r: seq<Txn>)
    ensures forall t {:trigger multiset(r)[t]} :: multiset(r)[t] == (if t.tag == tag then multiset(log)[t] else 0)
  {
    if log == [] then []
    else
      assert log == [log[0]] + log[1..];
      (if log[0].tag == tag then [log[0]] else []) + OfType(log[1..], tag)
  }

  /** Filtering a log with one more record at the end. */
  lemma {:induction false} OfTypeAppend(log: seq<Txn>, t: Txn, tag: string)
    ensures OfType(log + [t], tag) == OfType(log, tag) + (if t.tag == tag then [t] else [])
  {
    if log != [] {
      assert (log + [t])[1..] == log[1..] + [t];
      OfTypeAppend(log[1..], t, tag);
    } else {
      assert (log + [t])[1..] == [];
    }
  }

  /** Python's `<=` on strings: code-point lexicographic order, a prefix first. */
  predicate StrLe(a: string, b: string)
  {
    |a| == 0 || (|b| > 0 && (a[0] < b[0] || (a[0] == b[0] && StrLe(a[1..], b[1..]))))
  }

  lemma {:induction false} StrLeTotal(a: string, b: string)
    ensures StrLe(a, b) || StrLe(b, a)
  {
    if |a| > 0 && |b| > 0 && a[0] == b[0] {
      StrLeTotal(a[1..], b[1..]);
    }
  }

  lemma {:induction false} StrLeTrans(a: string, b: string, c: string)
    requires StrLe(a, b) && StrLe(b, c)
    ensures StrLe(a, c)
  {
    if |a| > 0 && a[0] == b[0] && b[0] == c[0] {
      StrLeTrans(a[1..], b[1..], c[1..]);
    }
  }

  /** Every earlier record has a Date no smaller than every later one. */
  ghost predicate NewestFirst(s: seq<Txn>)
  {
    forall i, j :: 0 <= i < j < |s| ==> StrLe(s[j].date, s[i].date)
  }

  /** Places t before the first record whose Date is not greater than its own. */
  function InsertByDate(t: Txn, s: seq<Txn>): (r: seq<Txn>)
    ensures multiset(r) == multiset(s) + multiset{t}
    ensures NewestFirst(s) ==> NewestFirst(r)
  {
    if s == [] then [t]
    else if StrLe(s[0].date, t.date) then
      var r := [t] + s;
      assert NewestFirst(s) ==> NewestFirst(r) by {
        if NewestFirst(s) {
          forall j | 0 < j < |r| ensures StrLe(r[j].date, t.date) {
            if j > 1 { StrLeTrans(r[j].date, s[0].date, t.date); }
          }
        }
      }
      r
    else
      var rest := InsertByDate(t, s[1..]);
      var r := [s[0]] + rest;
      assert s == [s[0]] + s[1..];
      assert NewestFirst(s) ==> NewestFirst(r) by {
        if NewestFirst(s) {
          StrLeTotal(s[0].date, t.date);
          forall j | 0 < j < |r| ensures StrLe(r[j].date, s[0].date) {
            assert r[j] in multiset(rest);
            if r[j] != t {
              var k :| 1 <= k < |s| && s[k] == r[j];
            }
          }
        }
      }
      r
  }

  /** The records sorted by Date, newest first (sort_values descending). */
  function SortByDateDesc(s: seq<Txn>): (r: seq<Txn>)
    ensures multiset(r) == multiset(s)
    ensures NewestFirst(r)
  {
    if s == [] then []
    else
      assert s == [s[0]] + s[1..];
      InsertByDate(s[0], SortByDateDesc(s[1..]))
  }

  /** The history view of one type: exactly the records of that type, each as
      often as the log has it, newest first. A log with no records gives a
      frame without a Type column, on which the filter fails: None. */
  function History(log: seq<Txn>, tag: string): (r: Option<seq<Txn>>)
    ensures r.None? <==> log == []
    ensures r.Some? ==> forall t :: multiset(r.value)[t] == (if t.tag == tag then multiset(log)[t] else 0)
    ensures r.Some? ==> forall t :: t in r.value <==> t in log && t.tag == tag
    ensures r.Some? ==> NewestFirst(r.value)
  {
    if log == [] then None
    else
      var v := SortByDateDesc(OfType(log, tag));
      assert forall t :: t in v <==> t in multiset(v);
      assert forall t :: t in log <==> t in multiset(log);
      Some(v)
  }

  /** The grouping key of the Paju summary. */
  function GroupKey(t: Txn): (string, string)
  {
    (t.isbn, t.title)
  }

  /** The sum of Change over the records of one group. */
  function GroupSum(s: seq<Txn>, key: (string, string)): int
  {
    if s == [] then 0
    else (if GroupKey(s[0]) == key then s[0].change else 0) + GroupSum(s[1..], key)
  }

  /** The groups present among the records. */
  function Groups(s: seq<Txn>): set<(string, string)>
  {
    set t | t in s :: GroupKey(t)
  }

  /** Group by (ISBN, Title) and negate each group's sum of Change. */
  function NegatedSums(s: seq<Txn>): map<(string, string), int>
  {
    map key | key in Groups(s) :: -GroupSum(s, key)
  }

  /** The Paju summary: filter on OUT-PAJU, group by (ISBN, Title), negate the sum of Change. */
  function PajuSummary(log: seq<Txn>): map<(string, string), int>
  {
    NegatedSums(OfType(log, PajuTag))
  }

  /** The summary has one entry per (ISBN, Title) pair among the OUT-PAJU records. */
  lemma PajuSummaryKeys(log: seq<Txn>, key: (string, string))
    ensures key in PajuSummary(log) <==> exists t :: t in log && t.tag == PajuTag && GroupKey(t) == key
  {
    var paju := OfType(log, PajuTag);
    assert forall t :: t in paju <==> t in multiset(paju);
    assert forall t :: t in log <==> t in multiset(log);
  }

  /** load_paju_summary: the Paju summary of the Transactions sheet, or None
      when the sheet has no records and so no Type column to filter on. */
  function LoadPajuSummary(log: seq<Txn>): (r: Option<map<(string, string), int>>)
    ensures r.None? <==> log == []
    ensures r.Some? ==> r.value == PajuSummary(log)
  {
    if log == [] then None else Some(PajuSummary(log))
  }

  lemma {:induction false} GroupSumAppend(s: seq<Txn>, t: Txn, key: (string, string))
    ensures GroupSum(s + [t], key) == GroupSum(s, key) + (if GroupKey(t) == key then t.change else 0)
  {
    if s != [] {
      assert (s + [t])[1..] == s[1..] + [t];
      GroupSumAppend(s[1..], t, key);
    } else {
      assert (s + [t])[1..] == [];
    }
  }

  /** A group absent from the records sums to zero. */
  lemma {:induction false} GroupSumAbsent(s: seq<Txn>, key: (string, string))
    requires key !in Groups(s)
    ensures GroupSum(s, key) == 0
  {
    if s != [] {
      assert Groups(s[1..]) <= Groups(s);
      GroupSumAbsent(s[1..], key);
    }
  }

  /** One more record subtracts its Change from its own group, creating the
      group if needed; no other group changes. */
  lemma NegatedSumsAppend(s: seq<Txn>, t: Txn)
    ensures var before := NegatedSums(s);
      NegatedSums(s + [t]) ==
        before[GroupKey(t) := (if GroupKey(t) in before then before[GroupKey(t)] else 0) - t.change]
  {
    var s' := s + [t];
    assert Groups(s') == Groups(s) + {GroupKey(t)};
    forall key ensures GroupSum(s', key) == GroupSum(s, key) + (if GroupKey(t) == key then t.change else 0) {
      GroupSumAppend(s, t, key);
    }
    if GroupKey(t) !in Groups(s) {
      GroupSumAbsent(s, GroupKey(t));
    }
  }

  /** A record of another type leaves the summary as it was. */
  lemma PajuSummaryOtherType(log: seq<Txn>, t: Txn)
    requires t.tag != PajuTag
    ensures PajuSummary(log + [t]) == PajuSummary(log)
  {
    var paju := OfType(log, PajuTag);
    OfTypeAppend(log, t, PajuTag);
    assert paju + [] == paju;
  }

  /** An OUT-PAJU record adds its negated Change to its own group, creating the
      group if needed; no other group changes. */
  lemma PajuSummaryAppend(log: seq<Txn>, t: Txn)
    requires t.tag == PajuTag
    ensures var before := PajuSummary(log);
      PajuSummary(log + [t]) ==
        before[GroupKey(t) := (if GroupKey(t) in before then before[GroupKey(t)] else 0) - t.change]
  {
    var paju := OfType(log, PajuTag);
    OfTypeAppend(log, t, PajuTag);
    assert OfType(log + [t], PajuTag) == paju + [t];
    NegatedSumsAppend(paju, t);
  }

  /** A group whose every record has Change at most -1 sums to at most -1. */
  lemma {:induction false} GroupSumNegative(s: seq<Txn>, key: (string, string))
    requires forall t :: t in s ==> t.change <= -1
    requires key in Groups(s)
    ensures GroupSum(s, key) <= -1
  {
    if GroupKey(s[0]) == key {
      if key in Groups(s[1..]) {
        GroupSumNegative(s[1..], key);
      } else {
        GroupSumAbsent(s[1..], key);
      }
    } else {
      assert key in Groups(s[1..]);
      GroupSumNegative(s[1..], key);
    }
  }

  /** When every OUT-PAJU record has Change at most -1, as the Paju-outbound
      operation writes them, every summary value is at least 1. */
  lemma PajuSummaryPositive(log: seq<Txn>)
    requires forall t :: t in log && t.tag == PajuTag ==> t.change <= -1
    ensures forall key :: key in PajuSummary(log) ==> PajuSummary(log)[key] >= 1
  {
    var paju := OfType(log, PajuTag);
    forall t | t in paju ensures t.change <= -1 {
      assert t in multiset(paju);
      assert t in multiset(log);
    }
    forall key | key in Groups(paju) ensures GroupSum(paju, key) <= -1 {
      GroupSumNegative(paju, key);
    }
  }

  /** The worked example: two OUT-PAJU records of 3 and 2 for ISBN "111"
      summarise to 5. */
  lemma PajuSummaryExample(d1: string, d2: string)
    ensures PajuSummary([Txn(d1, "111", "T", -3, PajuTag), Txn(d2, "111", "T", -2, PajuTag)])
            == map[("111", "T") := 5]
  {
    var t1, t2 := Txn(d1, "111", "T", -3, PajuTag), Txn(d2, "111", "T", -2, PajuTag);
    OfTypeAppend([t1], t2, PajuTag);
    OfTypeAppend([], t1, PajuTag);
    assert [t1] + [t2] == [t1, t2];
    NegatedSumsAppend([], t1);
    NegatedSumsAppend([t1], t2);
  }
}
