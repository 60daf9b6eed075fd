/** The short question title of the admin question list. */
module Admin {
  import opened Wrappers
  import opened Text

  const ShortLength: nat := 50
  const Ellipsis: string := "..."

  /** `question_title_short`: the title, or its first 50 characters and an ellipsis when longer. */
  function QuestionTitleShort(title: Option<string>): (r: string)
    ensures |r| <= ShortLength + |Ellipsis|
    ensures title.None? ==> r == []
    ensures title.Some? && |title.value| <= ShortLength ==> r == title.value
    ensures title.Some? && |title.value| > ShortLength ==>
      |r| == ShortLength + |Ellipsis| && StartsWith(title.value, r[..ShortLength]) && r[ShortLength..] == Ellipsis
  {
    var t := title.GetOr("");
    if |t| > ShortLength then t[..ShortLength] + Ellipsis else t
  }

  /** Shortening a shown title again changes nothing. */
  lemma QuestionTitleShortIdempotent(title: Option<string>)
    ensures QuestionTitleShort(Some(QuestionTitleShort(title))) == QuestionTitleShort(title)
  {
    var r := QuestionTitleShort(title);
    if |r| > ShortLength {
      assert r[..ShortLength] + Ellipsis == r;
    }
  }

  /** Two long titles show the same text exactly when their first 50 characters agree. */
  lemma QuestionTitleShortCollides(a: string, b: string)
    requires |a| > ShortLength && |b| > ShortLength
    ensures QuestionTitleShort(Some(a)) == QuestionTitleShort(Some(b)) <==> a[..ShortLength] == b[..ShortLength]
  {
    if QuestionTitleShort(Some(a)) == QuestionTitleShort(Some(b)) {
      assert a[..ShortLength] == QuestionTitleShort(Some(a))[..ShortLength];
    }
  }
}
