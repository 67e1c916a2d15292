/** The inventory ledger: the in-memory inventory table, the Inventory and
    Transactions worksheets it is saved to, and the inbound, outbound and
    Paju-outbound operations that change them. */
module Inventory {
  import opened Records
  import opened Sheets
  import opened Views

  /** The sum of Change over the records of one ISBN, whatever their type. */
  function NetChange(s: seq<Txn>, isbn: string): int
  {
    if s == [] then 0
    else (if s[0].isbn == isbn then s[0].change else 0) + NetChange(s[1..], isbn)
  }

  lemma {:induction false} NetChangeAppend(s: seq<Txn>, t: Txn, isbn: string)
    ensures NetChange(s + [t], isbn) == NetChange(s, isbn) + (if t.isbn == isbn then t.change else 0)
  {
    if s != [] {
      assert (s + [t])[1..] == s[1..] + [t];
      NetChangeAppend(s[1..], t, isbn);
    } else {
      assert (s + [t])[1..] == [];
    }
  }

  /** Records of other ISBNs contribute nothing. */
  lemma {:induction false} NetChangeAbsent(s: seq<Txn>, isbn: string)
    requires forall i :: 0 <= i < |s| ==> s[i].isbn != isbn
    ensures NetChange(s, isbn) == 0
  {
    if s != [] {
      NetChangeAbsent(s[1..], isbn);
    }
  }

  /** Records of one ISBN, such as a run of inbounds of a new ISBN, net to
      the sum of their quantities. */
  lemma {:induction false} NetChangeRun(s: seq<Txn>, isbn: string, qtys: seq<int>)
    requires |s| == |qtys|
    requires forall i :: 0 <= i < |s| ==> s[i].isbn == isbn && s[i].change == qtys[i]
    ensures NetChange(s, isbn) == Sum(qtys)
  {
    if s != [] {
      NetChangeRun(s[1..], isbn, qtys[1..]);
    }
  }

  function Sum(xs: seq<int>): int
  {
    if xs == [] then 0 else xs[0] + Sum(xs[1..])
  }

  /** The shape of a record the three operations write: IN with a Change of
      at least 1, OUT or OUT-PAJU with a Change of at most -1. */
  predicate Logged(t: Txn)
  {
    || (t.tag == InTag && t.change >= 1)
    || ((t.tag == OutTag || t.tag == PajuTag) && t.change <= -1)
  }

  class Ledger {
    /** The inventory table in memory (inv_df). */
    var inv: Table
    /** The cells of the Inventory worksheet. */
    var invSheet: seq<seq<Cell>>
    /** The rows of the Transactions worksheet, oldest first. */
    var log: seq<Txn>

    /** The quantity of each ISBN when the inventory was loaded. */
    ghost var opening: map<string, int>
    /** How many transaction rows existed when the inventory was loaded. */
    ghost var origin: nat

    ghost function Opening(isbn: string): int
      reads this
    {
      if isbn in opening then opening[isbn] else 0
    }

    /** The table is well formed and saved; every record appended since the
        load names a listed ISBN and has the shape of Logged; and each ISBN's quantity is its quantity at
        load (0 for an ISBN added since) plus the Change of those records. */
    ghost predicate Valid()
      reads this
    {
      && inv.Valid()
      && invSheet == Rendered(inv)
      && origin <= |log|
      && opening.Keys <= inv.rows.Keys
      && (forall i :: origin <= i < |log| ==> log[i].isbn in inv.rows && Logged(log[i]))
      && (forall isbn :: isbn in inv.rows ==>
            inv.rows[isbn].qty == Opening(isbn) + NetChange(log[origin..], isbn))
    }

    /** Loads the Inventory worksheet; the Transactions worksheet is taken as it is. */
    constructor (sheet: seq<seq<Cell>>, records: seq<Txn>)
      requires LoadInventory(sheet).Some?
      ensures Valid()
      ensures inv == LoadInventory(sheet).value && invSheet == sheet && log == records
      ensures forall isbn :: isbn in inv.rows ==> Opening(isbn) == inv.rows[isbn].qty
    {
      var t := LoadInventory(sheet).value;
      inv := t;
      invSheet := sheet;
      log := records;
      opening := map isbn | isbn in t.rows :: t.rows[isbn].qty;
      origin := |records|;
      new;
      RenderLoaded(sheet);
      assert log[origin..] == [];
    }

    /** Clears the Inventory worksheet, writes the header, then one row per
        label in table order. */
    method SaveInventory()
      requires inv.Valid()
      modifies this`invSheet
      ensures invSheet == Rendered(inv)
    {
      invSheet := [];
      invSheet := invSheet + [Header];
      var i := 0;
      while i < |inv.index|
        invariant 0 <= i <= |inv.index|
        invariant invSheet == [Header] + DataRows(inv.index[..i], inv.rows)
      {
        var isbn := inv.index[i];
        invSheet := invSheet + [RowCells(isbn, inv.rows[isbn])];
        i := i + 1;
        assert inv.index[..i][..i - 1] == inv.index[..i - 1];
      }
      assert inv.index[..i] == inv.index;
    }

    /** Appends one row to the Transactions worksheet; the time is a parameter. */
    method LogTransaction(isbn: string, title: string, change: int, tag: string, now: string)
      modifies this`log
      ensures log == old(log) + [Txn(now, isbn, title, change, tag)]
    {
      log := log + [Txn(now, isbn, title, change, tag)];
    }

    /** Inbound: a new ISBN gets a row with the given fields and quantity,
        appended to the table; a listed ISBN has its quantity raised. The table
        is saved and one IN record is logged with the title now in the table. */
    method Inbound(isbn: string, author: string, price: int, title: string, qty: int, now: string)
      requires Valid()
      requires isbn != "" || isbn in inv.rows
      requires price >= 0 && qty >= 1
      modifies this
      ensures Valid() && opening == old(opening) && origin == old(origin)
      ensures isbn in old(inv.rows) ==>
        && inv.index == old(inv.index)
        && inv.rows == old(inv.rows)[isbn := old(inv.rows[isbn]).(qty := old(inv.rows[isbn].qty) + qty)]
      ensures isbn !in old(inv.rows) ==>
        && inv.index == old(inv.index) + [isbn]
        && inv.rows == old(inv.rows)[isbn := Row(author, price, title, qty)]
      ensures invSheet == Rendered(inv)
      ensures log == old(log) + [Txn(now, isbn, inv.rows[isbn].title, qty, InTag)]
    {
      ghost var oldLog := log;
      if isbn !in inv.rows {
        forall i | 0 <= i < |log[origin..]| ensures log[origin..][i].isbn != isbn {
          assert log[origin..][i] == log[origin + i];
        }
        NetChangeAbsent(log[origin..], isbn);
        inv := Table(inv.index + [isbn], inv.rows[isbn := Row(author, price, title, qty)]);
      } else {
        inv := inv.(rows := inv.rows[isbn := inv.rows[isbn].(qty := inv.rows[isbn].qty + qty)]);
      }
      SaveInventory();
      LogTransaction(isbn, inv.rows[isbn].title, qty, InTag, now);
      KeepsLedger(oldLog, isbn, qty);
    }

    /** Outbound of either type: an unknown ISBN or too little stock is
        rejected and nothing changes; otherwise the quantity drops by qty, the
        table is saved and one record of the given type with Change -qty is
        logged. */
    method Withdraw(isbn: string, qty: int, tag: string, now: string) returns (r: Outcome)
      requires Valid() && qty >= 1 && (tag == OutTag || tag == PajuTag)
      modifies this
      ensures Valid() && opening == old(opening) && origin == old(origin)
      ensures r == UnknownIsbn <==> isbn !in old(inv.rows)
      ensures r == InsufficientStock <==> isbn in old(inv.rows) && old(inv.rows[isbn].qty) < qty
      ensures r != Ok ==> inv == old(inv) && invSheet == old(invSheet) && log == old(log)
      ensures r == Ok ==>
        && inv.index == old(inv.index)
        && inv.rows == old(inv.rows)[isbn := old(inv.rows[isbn]).(qty := old(inv.rows[isbn].qty) - qty)]
        && inv.rows[isbn].qty >= 0
        && invSheet == Rendered(inv)
        && log == old(log) + [Txn(now, isbn, old(inv.rows[isbn].title), -qty, tag)]
    {
      if isbn !in inv.rows {
        return UnknownIsbn;
      } else if inv.rows[isbn].qty < qty {
        return InsufficientStock;
      }
      ghost var oldLog := log;
      inv := inv.(rows := inv.rows[isbn := inv.rows[isbn].(qty := inv.rows[isbn].qty - qty)]);
      SaveInventory();
      LogTransaction(isbn, inv.rows[isbn].title, -qty, tag, now);
      KeepsLedger(oldLog, isbn, -qty);
      r := Ok;
    }

    /** Outbound: Withdraw with type OUT; the Paju summary is unaffected. */
    method Outbound(isbn: string, qty: int, now: string) returns (r: Outcome)
      requires Valid() && qty >= 1
      modifies this
      ensures Valid() && opening == old(opening) && origin == old(origin)
      ensures r == UnknownIsbn <==> isbn !in old(inv.rows)
      ensures r == InsufficientStock <==> isbn in old(inv.rows) && old(inv.rows[isbn].qty) < qty
      ensures r != Ok ==> inv == old(inv) && invSheet == old(invSheet) && log == old(log)
      ensures r == Ok ==>
        && inv.index == old(inv.index)
        && inv.rows == old(inv.rows)[isbn := old(inv.rows[isbn]).(qty := old(inv.rows[isbn].qty) - qty)]
        && log == old(log) + [Txn(now, isbn, old(inv.rows[isbn].title), -qty, OutTag)]
      ensures PajuSummary(log) == PajuSummary(old(log))
    {
      r := Withdraw(isbn, qty, OutTag, now);
      if r == Ok {
        var t := Txn(now, isbn, old(inv.rows[isbn].title), -qty, OutTag);
        assert log == old(log) + [t];
        PajuSummaryOtherType(old(log), t);
      }
    }

    /** Paju-outbound: Withdraw with type OUT-PAJU; the Paju summary of the
        (ISBN, Title) pair grows by exactly qty and no other entry changes. */
    method PajuOutbound(isbn: string, qty: int, now: string) returns (r: Outcome)
      requires Valid() && qty >= 1
      modifies this
      ensures Valid() && opening == old(opening) && origin == old(origin)
      ensures r == UnknownIsbn <==> isbn !in old(inv.rows)
      ensures r == InsufficientStock <==> isbn in old(inv.rows) && old(inv.rows[isbn].qty) < qty
      ensures r != Ok ==> inv == old(inv) && invSheet == old(invSheet) && log == old(log)
      ensures r == Ok ==>
        && inv.index == old(inv.index)
        && inv.rows == old(inv.rows)[isbn := old(inv.rows[isbn]).(qty := old(inv.rows[isbn].qty) - qty)]
        && log == old(log) + [Txn(now, isbn, old(inv.rows[isbn].title), -qty, PajuTag)]
      ensures r == Ok ==>
        var key := (isbn, old(inv.rows[isbn].title));
        var before := PajuSummary(old(log));
        PajuSummary(log) == before[key := (if key in before then before[key] else 0) + qty]
    {
      r := Withdraw(isbn, qty, PajuTag, now);
      if r == Ok {
        var t := Txn(now, isbn, old(inv.rows[isbn].title), -qty, PajuTag);
        assert log == old(log) + [t];
        PajuSummaryAppend(old(log), t);
      }
    }

    /** Since the load, every value of the Paju summary of the appended
        records is at least 1. */
    lemma SessionPajuSummaryPositive()
      requires Valid()
      ensures forall key :: key in PajuSummary(log[origin..]) ==> PajuSummary(log[origin..])[key] >= 1
    {
      var s := log[origin..];
      forall t | t in s && t.tag == PajuTag ensures t.change <= -1 {
        var i :| 0 <= i < |s| && s[i] == t;
        assert s[i] == log[origin + i];
      }
      PajuSummaryPositive(s);
    }

    /** A session of inbounds only, all of one ISBN not listed at load, leaves
        that ISBN listed with the sum of their quantities, each at least 1. */
    lemma InboundRunTotal(isbn: string, qtys: seq<int>)
      requires Valid() && isbn !in opening && qtys != []
      requires |log| == origin + |qtys|
      requires forall i :: origin <= i < |log| ==>
        log[i].isbn == isbn && log[i].tag == InTag && log[i].change == qtys[i - origin]
      ensures isbn in inv.rows && inv.rows[isbn].qty == Sum(qtys)
      ensures forall i :: 0 <= i < |qtys| ==> qtys[i] >= 1
    {
      var s := log[origin..];
      forall i | 0 <= i < |s| ensures s[i].isbn == isbn && s[i].change == qtys[i] {
        assert s[i] == log[origin + i];
      }
      assert s[0] == log[origin];
      NetChangeRun(s, isbn, qtys);
      forall i | 0 <= i < |qtys| ensures qtys[i] >= 1 {
        assert log[origin + i].change == qtys[i] && Logged(log[origin + i]);
      }
    }

    /** After a mutation of isbn by change and one logged record, the ledger
        equation holds again. */
    lemma KeepsLedger(oldLog: seq<Txn>, isbn: string, change: int)
      requires inv.Valid() && invSheet == Rendered(inv)
      requires origin <= |oldLog| && opening.Keys <= inv.rows.Keys && isbn in inv.rows
      requires |log| == |oldLog| + 1 && log[..|oldLog|] == oldLog
      requires log[|oldLog|].isbn == isbn && log[|oldLog|].change == change && Logged(log[|oldLog|])
      requires forall i :: origin <= i < |oldLog| ==> oldLog[i].isbn in inv.rows && Logged(oldLog[i])
      requires forall k :: k in inv.rows && k != isbn ==>
        inv.rows[k].qty == Opening(k) + NetChange(oldLog[origin..], k)
      requires inv.rows[isbn].qty == Opening(isbn) + NetChange(oldLog[origin..], isbn) + change
      ensures Valid()
    {
      assert log[origin..] == oldLog[origin..] + [log[|oldLog|]];
      forall k | k in inv.rows
        ensures inv.rows[k].qty == Opening(k) + NetChange(log[origin..], k)
      {
        NetChangeAppend(oldLog[origin..], log[|oldLog|], k);
      }
    }
  }

  /** A client session: a new ISBN "222" received 10 times over, then an
      outbound of 15 (too many) and an outbound of the unregistered "999". */
  method Scenario(sheet: seq<seq<Cell>>, records: seq<Txn>, now: string)
    requires LoadInventory(sheet).Some?
    requires "222" !in LoadInventory(sheet).value.rows && "999" !in LoadInventory(sheet).value.rows
  {
    var ledger := new Ledger(sheet, records);
    ledger.Inbound("222", "X", 1000, "Book A", 10, now);
    assert ledger.inv.rows["222"] == Row("X", 1000, "Book A", 10);
    assert ledger.log == records + [Txn(now, "222", "Book A", 10, InTag)];
    var before := ledger.log;
    var r := ledger.Outbound("222", 15, now);
    assert r == InsufficientStock && ledger.inv.rows["222"].qty == 10 && ledger.log == before;
    r := ledger.Outbound("999", 1, now);
    assert r == UnknownIsbn && ledger.log == before;
  }
}
