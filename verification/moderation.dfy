/** The moderation dashboard: the status tabs and their counts, the report
    list a tab shows, the badge colour and label of a status, the actions a
    report offers, and the record update a review makes. */
module Moderation {
  import opened Common
  import opened Text
  import opened Lists
  import opened Types
  import opened Decimal

  /** A filter tab: all reports, or the reports with one status. */
  datatype Tab = AllTab | StatusTab(status: Status) {
    /** The tab's key, which is also the filter state's value. */
    function Key(): string {
      match this
      case AllTab => "all"
      case StatusTab(s) => s.Name()
    }
    function Label(): string {
      match this
      case AllTab => "All"
      case StatusTab(Pending) => "Pending"
      case StatusTab(Reviewed) => "Reviewed"
      case StatusTab(Resolved) => "Resolved"
      case StatusTab(Dismissed) => "Dismissed"
    }
  }

  /** The tabs in display order. */
  const Tabs: seq<Tab> := [StatusTab(Pending), StatusTab(Reviewed), StatusTab(Resolved), StatusTab(Dismissed), AllTab]

  /** The tab bar: one tab per status and then `all`, each key used once, and
      each label the key with its first letter upper-cased. */
  lemma TabsFacts()
    ensures |Tabs| == 5 && Tabs[|Tabs| - 1] == AllTab
    ensures forall s: Status :: StatusTab(s) in Tabs
    ensures forall i, j :: 0 <= i < j < |Tabs| ==> Tabs[i].Key() != Tabs[j].Key()
    ensures forall i :: 0 <= i < |Tabs| ==> Tabs[i].Label() == Capitalize(Tabs[i].Key())
  {
    EveryStatusHasTab();
    TabKeysDiffer();
    TabLabelsCapitalizeKeys();
  }

  lemma EveryStatusHasTab()
    ensures forall s: Status :: StatusTab(s) in Tabs
  {
    forall s: Status ensures StatusTab(s) in Tabs {
      var k := match s case Pending => 0 case Reviewed => 1 case Resolved => 2 case Dismissed => 3;
      assert Tabs[k] == StatusTab(s);
    }
  }

  lemma TabKeysDiffer()
    ensures forall i, j :: 0 <= i < j < |Tabs| ==> Tabs[i].Key() != Tabs[j].Key()
  {
    var keys := ["pending", "reviewed", "resolved", "dismissed", "all"];
    assert forall i :: 0 <= i < |Tabs| ==> Tabs[i].Key() == keys[i];
    forall i, j | 0 <= i < j < |Tabs| ensures keys[i] != keys[j] {
      if |keys[i]| == |keys[j]| {
        assert keys[1][2] != keys[2][2];
      }
    }
  }

  lemma TabLabelsCapitalizeKeys()
    ensures forall i :: 0 <= i < |Tabs| ==> Tabs[i].Label() == Capitalize(Tabs[i].Key())
  {
    forall i | 0 <= i < |Tabs| ensures Tabs[i].Label() == Capitalize(Tabs[i].Key()) {
      if Tabs[i].AllTab? {
        assert Capitalize("all") == [UpperChar('a')] + "ll";
      } else {
        assert Badge(Tabs[i].status) == Capitalize(Tabs[i].Key());
      }
    }
  }

  /** The filter the page opens with. */
  const DefaultTab: Tab := StatusTab(Pending)

  /** `filter === 'all' ? true : report.status === filter`: the page compares
      the status text with the tab's key. */
  function Shows(tab: Tab): (shows: Report -> bool)
    ensures forall r: Report :: shows(r) <==> tab.Key() == "all" || r.status.Name() == tab.Key()
  {
    StatusNamesDiffer();
    (r: Report) => tab.AllTab? || r.status == tab.status
  }

  /** Status names are distinct from each other and from the `all` key. */
  lemma StatusNamesDiffer()
    ensures forall s: Status :: s.Name() != "all"
    ensures forall s: Status, t: Status :: s.Name() == t.Name() ==> s == t
  {
    forall s: Status, t: Status | s.Name() == t.Name() ensures s == t {
      StatusNameRoundTrip(s);
      StatusNameRoundTrip(t);
    }
  }

  /** `reports?.filter(...) || []`: the reports the tab shows, in the order
      they were fetched; none while the reports are not loaded. */
  function Visible(reports: Option<seq<Report>>, tab: Tab): (r: seq<Report>)
    ensures reports.None? ==> r == []
    ensures reports.Some? ==> IsSubsequence(r, reports.value)
    ensures reports.Some? && tab.AllTab? ==> r == reports.value
    ensures forall i :: 0 <= i < |r| ==> tab.AllTab? || r[i].status == tab.status
    ensures reports.Some? ==> forall i :: 0 <= i < |reports.value| && (tab.AllTab? || reports.value[i].status == tab.status) ==> reports.value[i] in r
  {
    match reports
    case None => []
    case Some(rs) =>
      FilterIsSubsequence(rs, Shows(tab));
      if tab.AllTab? then FilterKeepsAll(rs, Shows(tab)); Filter(rs, Shows(tab))
      else Filter(rs, Shows(tab))
  }

  /** A tab shows every copy of each report it selects, however often the
      report occurs in the fetched list, and nothing the list lacks. */
  lemma VisibleCounts(reports: seq<Report>, tab: Tab)
    ensures multiset(Visible(Some(reports), tab)) <= multiset(reports)
    ensures forall x :: multiset(Visible(Some(reports), tab))[x]
                        == if tab.AllTab? || x.status == tab.status then multiset(reports)[x] else 0
  {
    FilterCounts(reports, Shows(tab));
  }

  /** The count in a tab's label: `(...).length || 0`. */
  function Count(reports: Option<seq<Report>>, tab: Tab): (n: nat)
    ensures n == |Visible(reports, tab)|
    ensures reports.None? ==> n == 0
  {
    match reports
    case None => 0
    case Some(rs) => |Filter(rs, Shows(tab))|
  }

  /** The four status tabs together count every report once. */
  lemma StatusCountsAddUp(rs: seq<Report>)
    ensures Count(Some(rs), StatusTab(Pending)) + Count(Some(rs), StatusTab(Reviewed))
          + Count(Some(rs), StatusTab(Resolved)) + Count(Some(rs), StatusTab(Dismissed))
         == Count(Some(rs), AllTab)
  {
    StatusCountsAddUpTo(rs);
    FilterKeepsAll(rs, Shows(AllTab));
  }

  /** Helper: the four status counts add up to the number of reports. */
  lemma {:induction false} StatusCountsAddUpTo(rs: seq<Report>)
    ensures |Filter(rs, Shows(StatusTab(Pending)))| + |Filter(rs, Shows(StatusTab(Reviewed)))|
          + |Filter(rs, Shows(StatusTab(Resolved)))| + |Filter(rs, Shows(StatusTab(Dismissed)))| == |rs|
    decreases |rs|
  {
    if |rs| > 0 {
      StatusCountsAddUpTo(rs[1..]);
      FilterStep(rs, Shows(StatusTab(Pending)));
      FilterStep(rs, Shows(StatusTab(Reviewed)));
      FilterStep(rs, Shows(StatusTab(Resolved)));
      FilterStep(rs, Shows(StatusTab(Dismissed)));
    }
  }

  /** Helper: one step of a filter's length. */
  lemma FilterStep(rs: seq<Report>, keep: Report -> bool)
    requires |rs| > 0
    ensures |Filter(rs, keep)| == (if keep(rs[0]) then 1 else 0) + |Filter(rs[1..], keep)|
  {
  }

  const Yellow: string := "bg-yellow-100 text-yellow-800"
  const Blue: string := "bg-blue-100 text-blue-800"
  const Green: string := "bg-green-100 text-green-800"
  const Gray: string := "bg-gray-100 text-gray-800"

  /** `getStatusColor`: the badge classes of a status text; anything else gets
      the gray default, which dismissed reports share. */
  function StatusColor(status: string): (color: string)
    ensures ParseStatus(status) == Some(Pending) ==> color == Yellow
    ensures ParseStatus(status) == Some(Reviewed) ==> color == Blue
    ensures ParseStatus(status) == Some(Resolved) ==> color == Green
    ensures ParseStatus(status) == Some(Dismissed) || ParseStatus(status).None? ==> color == Gray
  {
    if status == "pending" then Yellow
    else if status == "reviewed" then Blue
    else if status == "resolved" then Green
    else if status == "dismissed" then Gray
    else Gray
  }

  /** Pending, reviewed and resolved reports each have a colour of their own;
      dismissed ones and unknown texts are gray. */
  lemma StatusColorTells(status: string)
    ensures StatusColor(status) == Yellow <==> status == "pending"
    ensures StatusColor(status) == Blue <==> status == "reviewed"
    ensures StatusColor(status) == Green <==> status == "resolved"
    ensures StatusColor(status) == Gray <==> ParseStatus(status) !in {Some(Pending), Some(Reviewed), Some(Resolved)}
  {
    assert Yellow[3] == 'y' && Blue[3] == 'b' && Green[3] == 'g' && Gray[3] == 'g' && Green[4] == 'r' && Gray[4] == 'r' && Green[5] == 'e' && Gray[5] == 'a';
    if ParseStatus(status).Some? {
      StatusNameRoundTrip(ParseStatus(status).value);
    }
  }

  /** The badge text of a status: its name with the first letter upper-cased,
      which is the label of its tab. */
  function Badge(s: Status): (text: string)
    ensures text == StatusTab(s).Label()
  {
    var text := Capitalize(s.Name());
    assert text == [UpperChar(s.Name()[0])] + s.Name()[1..];
    text
  }

  /** The reported item's caption: its type with the first letter
      upper-cased, then `#` and its id. */
  function ItemCaption(t: ItemType, id: int): (text: string)
    ensures t == Post ==> StartsWith(text, "Post #")
    ensures t == Comment ==> StartsWith(text, "Comment #")
    ensures EndsWith(text, ShowInt(id))
    ensures text == (if t == Post then "Post #" else "Comment #") + ShowInt(id)
  {
    CapitalizedItemNames();
    var head := Capitalize(t.Name()) + " #";
    var text := head + ShowInt(id);
    assert text[..|head|] == head;
    assert text[|head|..] == ShowInt(id);
    text
  }

  /** Helper: the capitalised item type names. */
  lemma CapitalizedItemNames()
    ensures Capitalize(Post.Name()) == "Post" && Capitalize(Comment.Name()) == "Comment"
  {
    assert Capitalize("post") == [UpperChar('p')] + "ost";
    assert Capitalize("comment") == [UpperChar('c')] + "omment";
  }

  /** The actions a report card offers. */
  datatype Action = Resolve | Dismiss {
    function Target(): Status {
      match this
      case Resolve => Resolved
      case Dismiss => Dismissed
    }
  }

  /** Resolve and Dismiss, for pending reports only. */
  function Actions(r: Report): (acts: seq<Action>)
    ensures |acts| > 0 <==> r.status == Pending
    ensures forall i :: 0 <= i < |acts| ==> acts[i].Target() != Pending
    ensures r.status == Pending ==> |acts| == 2 && acts[0].Target() == Resolved && acts[1].Target() == Dismissed
  {
    if r.status == Pending then [Resolve, Dismiss] else []
  }

  /** `updateReportStatus`: every report with the id gets the new status, the
      review time and the moderator's id; no other field and no other report
      changes. */
  function Review(reports: seq<Report>, id: string, status: Status, moderatorId: string, now: string): (r: seq<Report>)
    ensures |r| == |reports|
    ensures forall i :: 0 <= i < |r| && reports[i].id != id ==> r[i] == reports[i]
    ensures forall i :: 0 <= i < |r| && reports[i].id == id ==>
      r[i] == reports[i].(status := status, reviewedAt := Some(now), reviewedBy := Some(moderatorId))
  {
    Map(reports, (x: Report) => if x.id == id then x.(status := status, reviewedAt := Some(now), reviewedBy := Some(moderatorId)) else x)
  }

  /** Reviewing twice with the same values is reviewing once. */
  lemma ReviewIdempotent(reports: seq<Report>, id: string, status: Status, moderatorId: string, now: string)
    ensures Review(Review(reports, id, status, moderatorId, now), id, status, moderatorId, now) == Review(reports, id, status, moderatorId, now)
  {
  }

  /** After a report is resolved or dismissed it leaves the pending tab, and
      the pending tab loses exactly the pending reports with that id. */
  lemma ReviewedReportLeavesPending(reports: seq<Report>, id: string, a: Action, moderatorId: string, now: string)
    ensures forall x :: x in Visible(Some(Review(reports, id, a.Target(), moderatorId, now)), DefaultTab) ==> x.id != id
    ensures Visible(Some(Review(reports, id, a.Target(), moderatorId, now)), DefaultTab)
         == Filter(Visible(Some(reports), DefaultTab), (x: Report) => x.id != id)
  {
    var after := Review(reports, id, a.Target(), moderatorId, now);
    var v := Visible(Some(after), DefaultTab);
    forall x | x in v ensures x.id != id {
      var k :| 0 <= k < |v| && v[k] == x;
      var j :| 0 <= j < |after| && after[j] == x;
    }
    PendingAfterReview(reports, id, a.Target(), moderatorId, now);
  }

  /** Helper: the pending reports after a non-pending review are the pending
      reports before it without the reviewed id. */
  lemma {:induction false} PendingAfterReview(reports: seq<Report>, id: string, status: Status, moderatorId: string, now: string)
    requires status != Pending
    ensures Filter(Review(reports, id, status, moderatorId, now), Shows(DefaultTab))
         == Filter(Filter(reports, Shows(DefaultTab)), (x: Report) => x.id != id)
    decreases |reports|
  {
    if |reports| > 0 {
      var pending, other := Shows(DefaultTab), (x: Report) => x.id != id;
      var after := Review(reports, id, status, moderatorId, now);
      assert after[1..] == Review(reports[1..], id, status, moderatorId, now);
      PendingAfterReview(reports[1..], id, status, moderatorId, now);
      var head := if pending(reports[0]) then [reports[0]] else [];
      assert Filter(reports, pending) == head + Filter(reports[1..], pending);
      FilterAppend(head, Filter(reports[1..], pending), other);
      assert Filter(after, pending) == (if pending(after[0]) then [after[0]] else []) + Filter(after[1..], pending);
    }
  }

  /** The empty-list text: `No {filter} reports found.`, without a word for the
      all tab. */
  function EmptyMessage(tab: Tab): (msg: string)
    ensures StartsWith(msg, "No ") && EndsWith(msg, " reports found.")
    ensures tab.AllTab? ==> msg == "No  reports found."
    ensures tab.StatusTab? ==> msg == "No " + tab.status.Name() + " reports found."
  {
    var word := if tab.AllTab? then "" else tab.Key();
    var msg := "No " + word + " reports found.";
    assert msg[..3] == "No ";
    assert msg[|msg| - 15..] == " reports found.";
    msg
  }
}
