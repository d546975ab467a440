/** The list control that shows the ARP table, and CARPDlg::updateTable (ARP/ARPDlg.cpp). */
module ArpView {
  import opened Text
  import opened DottedDecimal
  import opened MacAddress
  import opened Sequences
  import opened ArpTable

  datatype Row = Row(ip: string, mac: string, status: string)

  // The texts of one table entry, as addrToStr formats them.
  datatype Entry = Entry(ip: string, mac: string, status: nat)

  function EntryOf(n: Node): Entry {
    Entry(FormatIp(n.ip), MacText(n.mac), n.status)
  }

  function Entries(table: seq<Node>): seq<Entry> {
    seq(|table|, k requires 0 <= k < |table| => EntryOf(table[k]))
  }

  // The status column for the three statuses; other statuses leave the column as it is.
  function StatusText(status: nat, before: string): string {
    if status == ARP_TIME_OUT then "Timeout"
    else if status == INCOMPLETE then "incomplete"
    else if status == COMPLETE then "Complete"
    else before
  }

  // FindItem: the first row with this text in its first column, or -1.
  function FindItem(rows: seq<Row>, ip: string): (i: int)
    ensures -1 <= i < |rows|
  {
    IndexOf(FirstColumn(rows), ip)
  }

  function FirstColumn(rows: seq<Row>): seq<string> {
    seq(|rows|, k requires 0 <= k < |rows| => rows[k].ip)
  }

  lemma FindItemIsFirst(rows: seq<Row>, ip: string)
    ensures var i := FindItem(rows, ip);
            && (i == -1 <==> forall k :: 0 <= k < |rows| ==> rows[k].ip != ip)
            && (i >= 0 ==> rows[i].ip == ip && forall k :: 0 <= k < i ==> rows[k].ip != ip)
  {
    IndexOfIsFirst(FirstColumn(rows), ip);
    assert forall k :: 0 <= k < |rows| ==> FirstColumn(rows)[k] == rows[k].ip;
  }

  // What one round of the loop makes of the rows; the columns of a new row are empty at first.
  function ShowEntry(rows: seq<Row>, e: Entry): seq<Row> {
    var fi := FindItem(rows, e.ip);
    if fi == -1 then rows + [Row(e.ip, e.mac, StatusText(e.status, ""))]
    else rows[fi := Row(e.ip, e.mac, StatusText(e.status, rows[fi].status))]
  }

  // The rows after the first k entries.
  function ShowTo(rows: seq<Row>, es: seq<Entry>, k: nat): seq<Row>
    requires k <= |es|
  {
    if k == 0 then rows else ShowEntry(ShowTo(rows, es, k - 1), es[k - 1])
  }

  function ShowAll(rows: seq<Row>, table: seq<Node>): seq<Row> {
    ShowTo(rows, Entries(table), |table|)
  }

  // ---- What the view shows ----

  predicate Distinct(rows: seq<Row>) {
    forall j, k :: 0 <= j < k < |rows| ==> rows[j].ip != rows[k].ip
  }

  // The address is among the first k entries.
  predicate Listed(ip: string, es: seq<Entry>, k: nat)
    requires k <= |es|
  {
    exists j :: 0 <= j < k && es[j].ip == ip
  }

  // The last of the first k entries with the address.
  function LastEntry(es: seq<Entry>, k: nat, ip: string): (i: int)
    requires k <= |es|
    ensures -1 <= i < k
    ensures i >= 0 ==> es[i].ip == ip
  {
    if k == 0 then -1 else if es[k - 1].ip == ip then k - 1 else LastEntry(es, k - 1, ip)
  }

  lemma {:induction false} LastEntryIsLast(es: seq<Entry>, k: nat, ip: string)
    requires k <= |es|
    ensures forall j :: LastEntry(es, k, ip) < j < k ==> es[j].ip != ip
  {
    if k > 0 && es[k - 1].ip != ip {
      LastEntryIsLast(es, k - 1, ip);
    }
  }

  // The row shows the entry.
  predicate Shows(r: Row, e: Entry) {
    r.ip == e.ip && r.mac == e.mac && (e.status <= ARP_TIME_OUT ==> r.status == StatusText(e.status, ""))
  }

  // A row of the view after the first k entries: it shows the last entry of its address, or it
  // is an old row whose address is not among them.
  predicate RowIsRight(rows: seq<Row>, es: seq<Entry>, k: nat, r: seq<Row>, x: nat)
    requires k <= |es| && x < |r|
  {
    var last := LastEntry(es, k, r[x].ip);
    if last >= 0 then Shows(r[x], es[last]) else x < |rows| && r[x] == rows[x]
  }

  // The view after the first k entries: a row for each of their addresses, the old rows still in
  // their places, and every row right.
  ghost predicate View(rows: seq<Row>, es: seq<Entry>, k: nat, r: seq<Row>)
    requires k <= |es|
  {
    && |rows| <= |r| && Distinct(r)
    && (forall x :: 0 <= x < |rows| ==> r[x].ip == rows[x].ip)
    && (forall j :: 0 <= j < k ==> HasRow(r, es[j].ip))
    && (forall x :: 0 <= x < |r| ==> RowIsRight(rows, es, k, r, x))
  }

  ghost predicate HasRow(r: seq<Row>, ip: string) {
    exists x :: 0 <= x < |r| && r[x].ip == ip
  }

  // What one round changes: the row i of the entry's address, and nothing else.
  lemma ShowEntryStep(rows: seq<Row>, e: Entry) returns (i: nat)
    requires Distinct(rows)
    ensures var r := ShowEntry(rows, e);
            && |rows| <= |r| <= |rows| + 1 && (|r| > |rows| ==> i == |rows|)
            && Distinct(r) && i < |r| && Shows(r[i], e)
            && (forall k :: 0 <= k < |rows| ==> r[k].ip == rows[k].ip)
            && (forall k :: 0 <= k < |rows| && k != i ==> r[k] == rows[k])
  {
    var fi := FindItem(rows, e.ip);
    FindItemIsFirst(rows, e.ip);
    i := if fi == -1 then |rows| else fi;
  }

  lemma {:induction false} ShowToView(rows: seq<Row>, es: seq<Entry>, k: nat)
    requires Distinct(rows) && k <= |es|
    ensures View(rows, es, k, ShowTo(rows, es, k))
    decreases k
  {
    if k > 0 {
      ShowToView(rows, es, k - 1);
      var before, r := ShowTo(rows, es, k - 1), ShowTo(rows, es, k);
      var i := ShowEntryStep(before, es[k - 1]);
      forall j | 0 <= j < k
        ensures HasRow(r, es[j].ip)
      {
        if j < k - 1 {
          var x :| 0 <= x < |before| && before[x].ip == es[j].ip;
          assert r[x].ip == es[j].ip;
        } else {
          assert r[i].ip == es[j].ip;
        }
      }
      forall x | 0 <= x < |r|
        ensures RowIsRight(rows, es, k, r, x)
      {
        if x != i {
          assert RowIsRight(rows, es, k - 1, before, x);
        }
      }
    }
  }

  // Every row is for an address in the table.
  predicate Covered(rows: seq<Row>, table: seq<Node>) {
    forall k :: 0 <= k < |rows| ==> Listed(rows[k].ip, Entries(table), |table|)
  }

  // The row shows the entry: its IP address, its hardware address, and the text of its status.
  predicate ShowsNode(r: Row, n: Node) {
    && r.ip == FormatIp(n.ip) && ParseIp(r.ip) == n.ip
    && MacShows(r.mac, n.mac) && ParseMac(r.mac) == n.mac
    && (n.status == 0 ==> r.status == "incomplete")
    && (n.status == 1 ==> r.status == "Complete")
    && (n.status == 2 ==> r.status == "Timeout")
  }

  lemma EntryShowsNode(r: Row, n: Node)
    requires Shows(r, EntryOf(n))
    ensures ShowsNode(r, n)
  {
    FormatParses(n.ip);
    MacTextIs(n.mac);
    MacParses(n.mac);
  }

  // The view and the table agree: one row for every address of the table, showing its last entry.
  ghost predicate Agrees(rows: seq<Row>, table: seq<Node>) {
    && Distinct(rows)
    && (forall j :: 0 <= j < |table| ==> HasRow(rows, FormatIp(table[j].ip)))
    && (forall x :: 0 <= x < |rows| ==> ShowsLast(rows[x], table))
  }

  // The row is for an address in the table and shows the last entry that has it.
  ghost predicate ShowsLast(r: Row, table: seq<Node>) {
    exists j :: 0 <= j < |table| && ShowsNode(r, table[j]) && IsLast(table, j)
  }

  predicate IsLast(table: seq<Node>, j: nat)
    requires j < |table|
  {
    forall i :: j < i < |table| ==> table[i].ip != table[j].ip
  }

  /** One tick on a view of distinct rows whose addresses are all in the table: afterwards
      there is exactly one row for every address in the table, showing the hardware address
      and the status of its last entry, and the rows that were there keep their places. */
  lemma TickShowsTable(rows: seq<Row>, table: seq<Node>)
    requires Distinct(rows) && Covered(rows, table)
    ensures var r := ShowAll(rows, table);
            && Agrees(r, table) && Covered(r, table) && |rows| <= |r|
            && forall x :: 0 <= x < |rows| ==> r[x].ip == rows[x].ip
  {
    var es, r := Entries(table), ShowAll(rows, table);
    ShowToView(rows, es, |table|);
    forall j | 0 <= j < |table|
      ensures HasRow(r, FormatIp(table[j].ip))
    {
      assert HasRow(r, es[j].ip);
    }
    forall x | 0 <= x < |r|
      ensures ShowsLast(r[x], table) && Listed(r[x].ip, es, |table|)
    {
      assert RowIsRight(rows, es, |table|, r, x);
      RowShowsLast(rows, table, r[x], x);
    }
  }

  // A right row of a covered view shows the last entry of its address.
  lemma RowShowsLast(rows: seq<Row>, table: seq<Node>, r: Row, x: nat)
    requires Covered(rows, table)
    requires var last := LastEntry(Entries(table), |table|, r.ip);
             if last >= 0 then Shows(r, Entries(table)[last]) else x < |rows| && r == rows[x]
    ensures ShowsLast(r, table) && Listed(r.ip, Entries(table), |table|)
  {
    var es := Entries(table);
    LastEntryIsLast(es, |table|, r.ip);
    var last := LastEntry(es, |table|, r.ip);
    forall i | last < i < |table|
      ensures table[i].ip != table[last].ip
    {
      assert es[i].ip != es[last].ip;
    }
    EntryShowsNode(r, table[last]);
    assert ShowsNode(r, table[last]) && IsLast(table, last);
  }

  /** A view that agrees has a row for exactly the addresses in the table. */
  lemma RowsAreAddresses(rows: seq<Row>, table: seq<Node>, ip: Ip)
    requires Agrees(rows, table)
    ensures HasRow(rows, FormatIp(ip)) <==> Has(table, ip)
  {
    if x :| 0 <= x < |rows| && rows[x].ip == FormatIp(ip) {
      assert ShowsLast(rows[x], table);
      var j :| 0 <= j < |table| && ShowsNode(rows[x], table[j]) && IsLast(table, j);
      FormatInjective(table[j].ip, ip);
    }
    if j :| 0 <= j < |table| && table[j].ip == ip {
      assert HasRow(rows, FormatIp(table[j].ip));
    }
  }

  // Rows stay covered while no address leaves the table.
  lemma CoveredStays(rows: seq<Row>, before: seq<Node>, after: seq<Node>)
    requires Covered(rows, before) && KeepsAddresses(before, after)
    ensures Covered(rows, after)
  {
    var es, fs := Entries(before), Entries(after);
    forall k | 0 <= k < |rows|
      ensures Listed(rows[k].ip, fs, |after|)
    {
      assert Listed(rows[k].ip, es, |before|);
      var j :| 0 <= j < |before| && es[j].ip == rows[k].ip;
      assert fs[j].ip == es[j].ip;
    }
  }

  /** The address text of a row scans to an address in the table, so deleting it is defined. */
  lemma RowCanBeDeleted(rows: seq<Row>, table: seq<Node>, k: nat)
    requires k < |rows| && Covered(rows, table)
    ensures Has(table, ParseIp(rows[k].ip)) && FormatIp(ParseIp(rows[k].ip)) == rows[k].ip
  {
    var es := Entries(table);
    assert Listed(rows[k].ip, es, |table|);
    var j :| 0 <= j < |table| && es[j].ip == rows[k].ip;
    FormatParses(table[j].ip);
    assert table[j].ip == ParseIp(rows[k].ip);
  }
}
