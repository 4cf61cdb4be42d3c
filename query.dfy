/**
 * The search query that both the report pass and the delete pass send to
 * the mail service for a label: "category:" followed by the lower-cased
 * text after the label's last underscore.
 */
module Query {
  import Text

  const Prefix := "category:"

  /**
   * The query for a label: the prefix, followed by the text after the
   * label's last underscore, lower-cased.
   */
  function CategoryQuery(labelName: string): string {
    Prefix + Text.Lower(Text.LastSegment(labelName, '_'))
  }

  /**
   * The query is the prefix followed by the lower-cased longest tail of
   * the label that holds no underscore; that tail is the whole label or
   * follows an underscore.
   */
  lemma CategoryQueryShape(labelName: string)
    ensures var q := CategoryQuery(labelName);
      var n := |q| - |Prefix|;
      && |Prefix| <= |q|
      && q[..|Prefix|] == Prefix
      && n <= |labelName|
      && q[|Prefix|..] == Text.Lower(labelName[|labelName| - n..])
      && '_' !in labelName[|labelName| - n..]
      && (n < |labelName| ==> labelName[|labelName| - n - 1] == '_')
  {
    Text.LastSegmentIsTail(labelName, '_');
  }

  /** A label without an underscore is used whole. */
  lemma CategoryQueryWholeLabel(labelName: string)
    requires '_' !in labelName
    ensures CategoryQuery(labelName) == Prefix + Text.Lower(labelName)
  {
    Text.LastSegmentWhole(labelName, '_');
  }

  /** The configured label queries the promotions category. */
  lemma PromotionsQuery()
    ensures CategoryQuery("CATEGORY_PROMOTIONS") == "category:promotions"
  {
    PromotionsSegment();
    LowerPromotions();
    assert Prefix + "promotions" == "category:promotions";
  }

  lemma PromotionsSegment()
    ensures Text.LastSegment("CATEGORY_PROMOTIONS", '_') == "PROMOTIONS"
  {
    var tail := "PROMOTIONS";
    assert "CATEGORY_PROMOTIONS" == "CATEGORY" + ['_'] + tail;
    assert forall i :: 0 <= i < |tail| ==> tail[i] != '_';
    Text.LastSegmentAfter("CATEGORY", tail, '_');
  }

  lemma LowerPromotions()
    ensures Text.Lower("PROMOTIONS") == "promotions"
  {
  }
}
