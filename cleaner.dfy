/**
 * The script's entry point: report on every configured label, ask for
 * confirmation, and run the delete pass only on an explicit "yes".
 */
module Cleaner {
  import opened Text
  import opened Messages
  import Query
  import Report
  import Deletion

  /** The labels (folders) the script handles. */
  const LabelsToHandle: seq<string> := ["CATEGORY_PROMOTIONS"]

  /** The configured label yields one query, for the promotions category. */
  lemma ConfiguredQueries()
    ensures var queries := seq(|LabelsToHandle|, i requires 0 <= i < |LabelsToHandle| => Query.CategoryQuery(LabelsToHandle[i]));
      queries == ["category:promotions"]
  {
    Query.PromotionsQuery();
  }

  /** "yes" in any mix of ASCII upper and lower case. */
  predicate IsYesIgnoringCase(w: string) {
    && |w| == 3
    && (w[0] == 'y' || w[0] == 'Y')
    && (w[1] == 'e' || w[1] == 'E')
    && (w[2] == 's' || w[2] == 'S')
  }

  /**
   * The confirmation gate: the answer, with the whitespace at its ends
   * removed and lower-cased, must be exactly "yes".
   */
  function ShouldDelete(answer: string): bool {
    Lower(Strip(answer)) == "yes"
  }

  /** The answer holds "yes", in any case, padded by whitespace only. */
  predicate PaddedYesAt(answer: string, k: int) {
    && 0 <= k && k + 3 <= |answer|
    && AllSpace(answer[..k])
    && IsYesIgnoringCase(answer[k..k + 3])
    && AllSpace(answer[k + 3..])
  }

  /** A character lower-cases to the letter l exactly when it is l or its capital. */
  lemma ToLowerIs(c: char, l: char)
    requires 'a' <= l <= 'z'
    ensures ToLower(c) == l <==> c == l || c as int == l as int - 32
  {
  }

  /** A three-letter word lower-cases to "yes" exactly when it is "yes" in some case. */
  lemma LowerIsYes(w: string)
    ensures Lower(w) == "yes" <==> IsYesIgnoringCase(w)
  {
    if |w| == 3 {
      ToLowerIs(w[0], 'y');
      ToLowerIs(w[1], 'e');
      ToLowerIs(w[2], 's');
      if IsYesIgnoringCase(w) {
        assert Lower(w) == [Lower(w)[0], Lower(w)[1], Lower(w)[2]];
      }
    }
  }

  /** The gate opens only on "yes" in some case, padded by whitespace. */
  lemma ConfirmedOnlyByYes(answer: string)
    requires ShouldDelete(answer)
    ensures exists k :: PaddedYesAt(answer, k)
  {
    var r := Strip(answer);
    StripIsTrimmedSlice(answer);
    StripEnds(answer);
    LowerIsYes(r);
    var k :| PaddedAt(answer, r, k);
    assert PaddedYesAt(answer, k);
  }

  /** Any "yes" in some case, padded by whitespace, opens the gate. */
  lemma YesConfirms(answer: string, k: int)
    requires PaddedYesAt(answer, k)
    ensures ShouldDelete(answer)
  {
    var w := answer[k..k + 3];
    assert answer == answer[..k] + w + answer[k + 3..];
    StripPadded(answer[..k], w, answer[k + 3..]);
    LowerIsYes(w);
  }

  /**
   * The gate opens exactly when the answer is "yes", in any case, with
   * nothing but whitespace around it.
   */
  lemma ShouldDeleteIff(answer: string)
    ensures ShouldDelete(answer) <==> exists k :: PaddedYesAt(answer, k)
  {
    if ShouldDelete(answer) {
      ConfirmedOnlyByYes(answer);
    }
    if k :| PaddedYesAt(answer, k) {
      YesConfirms(answer, k);
    }
  }

  /** A plain "yes" proceeds. */
  lemma PlainYesConfirms()
    ensures ShouldDelete("yes")
  {
    UnpaddedAnswer("yes");
  }

  /** Case and surrounding whitespace do not matter: "  YES " proceeds. */
  lemma PaddedCapitalYesConfirms()
    ensures ShouldDelete("  YES ")
  {
    var answer := "  YES ";
    assert PaddedYesAt(answer, 2);
    YesConfirms(answer, 2);
  }

  /** An answer shorter than "yes" cancels: "", "y", "no", "No". */
  lemma ShortAnswersCancel(answer: string)
    requires |answer| < 3
    ensures !ShouldDelete(answer)
  {
    ShouldDeleteIff(answer);
  }

  /**
   * An answer with no whitespace at either end is taken as it is: it
   * proceeds exactly when it is "yes" in some case.
   */
  lemma UnpaddedAnswer(answer: string)
    requires answer != [] && !IsSpace(answer[0]) && !IsSpace(answer[|answer| - 1])
    ensures ShouldDelete(answer) <==> IsYesIgnoringCase(answer)
  {
    assert [] + answer + [] == answer;
    StripPadded([], answer, []);
    LowerIsYes(answer);
  }

  /** Words or punctuation after the "yes" cancel. */
  lemma TrailingTextCancels()
    ensures !ShouldDelete("Yes please") && !ShouldDelete("yes!")
  {
    UnpaddedAnswer("Yes please");
    UnpaddedAnswer("yes!");
  }

  /**
   * When each label's list call in the delete pass is answered as that
   * label's query was in the report pass, the delete pass issues exactly as
   * many delete calls as the report pass counted messages: both passes
   * derive the same query from each label.
   */
  lemma {:induction false} DeletionsMatchReport(labels: seq<string>,
    reportListing: string -> seq<Message>, deleteListing: Deletion.Listing)
    requires forall i :: 0 <= i < |labels| ==>
      reportListing(Query.CategoryQuery(labels[i])) == deleteListing(i, Query.CategoryQuery(labels[i]))
    ensures |Deletion.PlannedDeletions(labels, deleteListing)|
         == Report.ReportedCount(Report.ReportsFor(labels, reportListing))
    decreases |labels|
  {
    if labels != [] {
      var n := |labels|;
      var init := labels[..n - 1];
      DeletionsMatchReport(init, reportListing, deleteListing);
      var rs := Report.ReportsFor(labels, reportListing);
      assert rs[..n - 1] == Report.ReportsFor(init, reportListing);
      var ms := reportListing(Query.CategoryQuery(labels[n - 1]));
      assert rs[n - 1] == Report.ReportFor(labels[n - 1], ms);
      assert |Deletion.Ids(deleteListing(n - 1, Query.CategoryQuery(labels[n - 1])))| == |ms|;
    }
  }

  /**
   * The entry point: the reports are always produced; the delete pass runs, over the
   * configured labels, exactly when the answer confirms it, and otherwise
   * the mailbox is left as it was.
   */
  method Run(service: Deletion.Service, reportListing: string -> seq<Message>, answer: string,
             deleteListing: Deletion.Listing)
    returns (reports: seq<Report.LabelReport>, deleted: bool)
    modifies service
    ensures reports == Report.ReportsFor(LabelsToHandle, reportListing)
    ensures deleted == ShouldDelete(answer)
    ensures deleted ==> service.deleteCalls
                        == old(service.deleteCalls) + Deletion.PlannedDeletions(LabelsToHandle, deleteListing)
    ensures deleted ==> service.present
                        == old(service.present) - Deletion.IdSet(Deletion.PlannedDeletions(LabelsToHandle, deleteListing))
    ensures !deleted ==> service.deleteCalls == old(service.deleteCalls) && service.present == old(service.present)
  {
    reports := Report.GetFolderDetails(LabelsToHandle, reportListing);
    var confirm := Lower(Strip(answer));
    deleted := confirm == "yes";
    if deleted {
      Deletion.DeleteEmails(service, LabelsToHandle, deleteListing);
    }
  }
}
