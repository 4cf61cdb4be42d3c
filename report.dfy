/**
 * The report pass: for each label, the listed messages are counted, their
 * size estimates summed, and the first few (sender, subject) pairs kept for
 * display, with a note of how many were left out.
 */
module Report {
  import opened Messages
  import Query

  /** How many sample lines a folder report shows. */
  const SampleLimit: nat := 5

  /** One numbered line of the sample: its number, the sender and the subject. */
  datatype SampleLine = SampleLine(index: nat, sender: string, subject: string)

  /**
   * What is printed for one label that has messages: the count, the byte
   * total, the sample lines, and the number not displayed when there is a
   * remainder.
   */
  datatype FolderReport = FolderReport(count: nat, totalSize: int, sample: seq<SampleLine>, notShown: Option<nat>)

  /** The outcome for one label: nothing found, or a folder report. */
  datatype LabelReport = NoEmails(labelName: string) | Details(labelName: string, report: FolderReport)

  // ---------------------------------------------------------------------
  // Specification
  // ---------------------------------------------------------------------

  /** The sum of the size estimates, a missing estimate counting as 0. */
  function TotalSize(ms: seq<Message>): int {
    if ms == [] then 0 else TotalSize(ms[..|ms| - 1]) + SizeOf(ms[|ms| - 1])
  }

  function Min(a: int, b: int): int {
    if a <= b then a else b
  }

  /** The subject of every message, in list order. */
  function SubjectsOf(ms: seq<Message>): seq<string> {
    seq(|ms|, i requires 0 <= i < |ms| => SubjectOf(ms[i]))
  }

  /** The sender of every message, in list order. */
  function SendersOf(ms: seq<Message>): seq<string> {
    seq(|ms|, i requires 0 <= i < |ms| => SenderOf(ms[i]))
  }

  /**
   * The sample: as many lines as the shorter of the two lists, but at most
   * five; line i is numbered i + 1 and pairs the i-th sender with the i-th
   * subject.
   */
  function SampleOf(subjects: seq<string>, senders: seq<string>): seq<SampleLine> {
    var n := Min(SampleLimit, Min(|subjects|, |senders|));
    seq(n, i requires 0 <= i < n => SampleLine(i + 1, senders[i], subjects[i]))
  }

  /** The remainder note: present only when the sample could not show all. */
  function NotShown(count: nat): Option<nat> {
    if count > SampleLimit then Some(count - SampleLimit) else None
  }

  /** The folder report of a non-empty listing. */
  function Summarize(ms: seq<Message>): FolderReport {
    FolderReport(|ms|, TotalSize(ms), SampleOf(SubjectsOf(ms), SendersOf(ms)), NotShown(|ms|))
  }

  /** The outcome for one label, from the messages listed for it. */
  function ReportFor(labelName: string, ms: seq<Message>): LabelReport {
    if ms == [] then NoEmails(labelName) else Details(labelName, Summarize(ms))
  }

  /**
   * The reports for a list of labels, each built from the messages that
   * the service lists for that label's query.
   */
  function ReportsFor(labels: seq<string>, listing: string -> seq<Message>): seq<LabelReport> {
    seq(|labels|, i requires 0 <= i < |labels| => ReportFor(labels[i], listing(Query.CategoryQuery(labels[i]))))
  }

  /** The number of messages counted over all labels' reports. */
  function ReportedCount(reports: seq<LabelReport>): nat {
    if reports == [] then 0
    else
      var last := reports[|reports| - 1];
      ReportedCount(reports[..|reports| - 1]) + (if last.Details? then last.report.count else 0)
  }

  // ---------------------------------------------------------------------
  // Properties of the specification
  // ---------------------------------------------------------------------

  /** Size totals add up over consecutive runs of messages. */
  lemma {:induction false} TotalSizeAppend(a: seq<Message>, b: seq<Message>)
    ensures TotalSize(a + b) == TotalSize(a) + TotalSize(b)
    decreases |b|
  {
    if b == [] {
      assert a + b == a;
    } else {
      TotalSizeAppend(a, b[..|b| - 1]);
      assert (a + b)[..|a + b| - 1] == a + b[..|b| - 1];
    }
  }

  /** Extending a prefix by one message adds that message's size. */
  lemma TotalSizeStep(ms: seq<Message>, k: nat)
    requires k < |ms|
    ensures TotalSize(ms[..k + 1]) == TotalSize(ms[..k]) + SizeOf(ms[k])
  {
    assert ms[..k + 1][..k] == ms[..k];
  }

  /** The total starts at 0, so it is never negative when no estimate is. */
  lemma {:induction false} TotalSizeNonNegative(ms: seq<Message>)
    requires forall i :: 0 <= i < |ms| ==> SizeOf(ms[i]) >= 0
    ensures TotalSize(ms) >= 0
    decreases |ms|
  {
    if ms != [] {
      TotalSizeNonNegative(ms[..|ms| - 1]);
    }
  }

  /** Messages without a size estimate add nothing to the total. */
  lemma {:induction false} TotalSizeIgnoresMissing(ms: seq<Message>)
    requires forall i :: 0 <= i < |ms| ==> ms[i].sizeEstimate.None?
    ensures TotalSize(ms) == 0
    decreases |ms|
  {
    if ms != [] {
      TotalSizeIgnoresMissing(ms[..|ms| - 1]);
    }
  }

  /**
   * The sample shows the first min(5, N) messages in list order, numbered
   * from 1, each pairing that message's sender with its own subject.
   */
  lemma SummarySample(ms: seq<Message>)
    ensures var r := Summarize(ms);
      && |r.sample| == Min(SampleLimit, |ms|)
      && forall i :: 0 <= i < |r.sample| ==>
           r.sample[i] == SampleLine(i + 1, SenderOf(ms[i]), SubjectOf(ms[i]))
  {
  }

  /**
   * Every message is accounted for: the shown lines plus the remainder
   * note make up the count, and the note appears exactly when N > 5.
   */
  lemma SummaryAccountsForAll(ms: seq<Message>)
    ensures var r := Summarize(ms);
      && r.count == |ms|
      && |r.sample| + r.notShown.GetOr(0) == r.count
      && (r.notShown.Some? <==> |ms| > SampleLimit)
      && (r.notShown.Some? ==> r.notShown.value == |ms| - SampleLimit)
  {
  }

  function Sized(id: MessageId, size: int): Message {
    Message(id, Some(size), Some([Header("From", "s" + id), Header("Subject", "t" + id)]))
  }

  /**
   * Seven messages of 100 to 700 bytes: count 7, total 2800 bytes, five
   * sample lines, and "2 more emails not displayed".
   */
  lemma SevenMessagesExample()
    ensures var ms := [Sized("1", 100), Sized("2", 200), Sized("3", 300), Sized("4", 400),
                       Sized("5", 500), Sized("6", 600), Sized("7", 700)];
      var r := Summarize(ms);
      && r.count == 7 && r.totalSize == 2800 && |r.sample| == 5
      && r.sample[0] == SampleLine(1, "s1", "t1") && r.sample[4] == SampleLine(5, "s5", "t5")
      && r.notShown == Some(2)
  {
    var ms := [Sized("1", 100), Sized("2", 200), Sized("3", 300), Sized("4", 400),
               Sized("5", 500), Sized("6", 600), Sized("7", 700)];
    assert ms[..0] == [];
    TotalSizeStep(ms, 0); TotalSizeStep(ms, 1); TotalSizeStep(ms, 2); TotalSizeStep(ms, 3);
    TotalSizeStep(ms, 4); TotalSizeStep(ms, 5); TotalSizeStep(ms, 6);
    assert ms[..7] == ms;
    assert SubjectOf(ms[0]) == "t1" && SenderOf(ms[0]) == "s1";
    assert SubjectOf(ms[4]) == "t5" && SenderOf(ms[4]) == "s5";
  }

  // ---------------------------------------------------------------------
  // The report pass
  // ---------------------------------------------------------------------

  /**
   * The per-message loop: the size total and one subject and one sender
   * per listed message, in list order.
   */
  method Aggregate(ms: seq<Message>) returns (totalSize: int, subjects: seq<string>, senders: seq<string>)
    ensures totalSize == TotalSize(ms)
    ensures |subjects| == |ms| && |senders| == |ms|
    ensures forall i :: 0 <= i < |ms| ==> subjects[i] == SubjectOf(ms[i]) && senders[i] == SenderOf(ms[i])
  {
    totalSize, subjects, senders := 0, [], [];
    for k := 0 to |ms|
      invariant totalSize == TotalSize(ms[..k])
      invariant |subjects| == k && |senders| == k
      invariant forall i :: 0 <= i < k ==> subjects[i] == SubjectOf(ms[i]) && senders[i] == SenderOf(ms[i])
    {
      assert ms[..k + 1][..k] == ms[..k];
      var headers := HeadersOf(ms[k]);
      totalSize := totalSize + SizeOf(ms[k]);
      subjects := subjects + [HeaderValue(headers, SubjectHeader, NoSubject)];
      senders := senders + [HeaderValue(headers, FromHeader, UnknownSender)];
    }
    assert ms[..|ms|] == ms;
  }

  /**
   * The display loop: at most five lines, numbered from 1, the i-th
   * pairing the i-th sender with the i-th subject.
   */
  method SampleLines(subjects: seq<string>, senders: seq<string>) returns (lines: seq<SampleLine>)
    ensures |lines| == Min(SampleLimit, Min(|subjects|, |senders|))
    ensures forall i :: 0 <= i < |lines| ==> lines[i] == SampleLine(i + 1, senders[i], subjects[i])
  {
    var shownSubjects := if |subjects| <= SampleLimit then subjects else subjects[..SampleLimit];
    var shownSenders := if |senders| <= SampleLimit then senders else senders[..SampleLimit];
    var n := Min(|shownSubjects|, |shownSenders|);
    lines := [];
    for k := 0 to n
      invariant |lines| == k
      invariant forall i :: 0 <= i < k ==> lines[i] == SampleLine(i + 1, senders[i], subjects[i])
    {
      lines := lines + [SampleLine(k + 1, shownSenders[k], shownSubjects[k])];
    }
  }

  /** The report for one label, from the messages listed for it. */
  method Gather(labelName: string, ms: seq<Message>) returns (r: LabelReport)
    ensures r == ReportFor(labelName, ms)
  {
    if ms == [] {
      return NoEmails(labelName);
    }
    var totalSize, subjects, senders := Aggregate(ms);
    var sample := SampleLines(subjects, senders);
    var notShown := if |ms| > SampleLimit then Some(|ms| - SampleLimit) else None;
    assert subjects == SubjectsOf(ms) && senders == SendersOf(ms);
    assert sample == SampleOf(subjects, senders);
    r := Details(labelName, FolderReport(|ms|, totalSize, sample, notShown));
  }

  /** The report pass: one report per label, in label order. */
  method GetFolderDetails(labels: seq<string>, listing: string -> seq<Message>) returns (reports: seq<LabelReport>)
    ensures reports == ReportsFor(labels, listing)
  {
    reports := [];
    for k := 0 to |labels|
      invariant |reports| == k
      invariant forall i :: 0 <= i < k ==> reports[i] == ReportFor(labels[i], listing(Query.CategoryQuery(labels[i])))
    {
      var query := Query.CategoryQuery(labels[k]);
      var messages := listing(query);
      var r := Gather(labels[k], messages);
      reports := reports + [r];
    }
  }
}
