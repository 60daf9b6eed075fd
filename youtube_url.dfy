/**
 * URL helpers of the quiz pipeline: canonicalising a short `youtu.be` link to a
 * watch URL and the case-insensitive test that a URL points at YouTube.
 * A Python argument that may be `None` is an `Option<string>`.
 */
module YoutubeUrl {
  import opened Wrappers
  import opened Text

  const ShortPrefix: string := "https://youtu.be/"
  const WatchPrefix: string := "https://www.youtube.com/watch?v="

  /** `normalize_youtube_url`: trim; a short link loses its query and gets the watch prefix. */
  function Normalize(url: Option<string>): string {
    var u := Strip(url.GetOr(""));
    if StartsWith(u, ShortPrefix) then ReplaceAll(BeforeFirst(u, '?'), ShortPrefix, WatchPrefix)
    else u
  }

  /** `is_youtube_url`: the lower-cased URL mentions either YouTube host. */
  predicate IsYoutubeUrl(url: Option<string>) {
    var u := Lower(url.GetOr(""));
    Contains(u, "youtube.com/") || Contains(u, "youtu.be/")
  }

  /**
   * A short link becomes the watch prefix followed by the text between the short
   * prefix and the first `?`, in which any further short prefix is rewritten too.
   */
  lemma NormalizeShortLink(url: string)
    requires StartsWith(Strip(url), ShortPrefix)
    ensures var cut := BeforeFirst(Strip(url), '?');
      && StartsWith(cut, ShortPrefix)
      && Normalize(Some(url)) == WatchPrefix + ReplaceAll(cut[|ShortPrefix|..], ShortPrefix, WatchPrefix)
      && '?' !in cut
      && (!Contains(cut[|ShortPrefix|..], ShortPrefix) ==> Normalize(Some(url)) == WatchPrefix + cut[|ShortPrefix|..])
  {
    var cut := BeforeFirst(Strip(url), '?');
    assert '?' !in ShortPrefix;
    CutThenReplace(Strip(url), '?', ShortPrefix, WatchPrefix);
    if !Contains(cut[|ShortPrefix|..], ShortPrefix) {
      ReplaceAllNoMatch(cut[|ShortPrefix|..], ShortPrefix, WatchPrefix);
    }
  }

  /** Any other input is only trimmed; a missing URL becomes the empty string. */
  lemma NormalizeOtherwiseTrims(url: Option<string>)
    requires url.None? || !StartsWith(Strip(url.value), ShortPrefix)
    ensures Normalize(url) == Strip(url.GetOr(""))
    ensures url.None? ==> Normalize(url) == ""
  {
  }

  /**
   * A trimmed short link whose identifier (the text up to position `k`, where the
   * first `?` stands) holds no further short prefix becomes watch prefix + identifier.
   */
  lemma NormalizeTrimmedShortLink(url: string, k: nat)
    requires StartsWith(url, ShortPrefix) && !IsSpace(url[0]) && !IsSpace(url[|url| - 1])
    requires |ShortPrefix| <= k < |url| && url[k] == '?' && '?' !in url[..k]
    requires !Contains(url[|ShortPrefix|..k], ShortPrefix)
    ensures Normalize(Some(url)) == WatchPrefix + url[|ShortPrefix|..k]
  {
    StripFixedPoint(url);
    BeforeFirstAt(url, '?', k);
    NormalizeShortLink(url);
    assert url[..k][|ShortPrefix|..] == url[|ShortPrefix|..k];
  }

  /** The short link of the test suite, with a tracking query. */
  lemma NormalizeShortExample(url: string)
    requires url == "https://youtu.be/abc123?si=foo"
    ensures Normalize(Some(url)) == "https://www.youtube.com/watch?v=abc123"
  {
    assert url[17..23] == "abc123";
    MissingFirstChar("abc123", ShortPrefix);
    NormalizeTrimmedShortLink(url, 23);
  }

  /** A trimmed URL that is not a short link is returned as it is. */
  lemma NormalizeTrimmedOther(url: string)
    requires url != [] && !IsSpace(url[0]) && !IsSpace(url[|url| - 1])
    requires !StartsWith(url, ShortPrefix)
    ensures Normalize(Some(url)) == url
  {
    StripFixedPoint(url);
  }

  /** A canonical watch URL is left as it is. */
  lemma NormalizeWatchExample(url: string)
    requires url == "https://www.youtube.com/watch?v=abc123"
    ensures Normalize(Some(url)) == url
  {
    WatchIsNotShort(url);
    NormalizeTrimmedOther(url);
  }

  /** Nothing that starts with the watch prefix looks like a short link. */
  lemma WatchIsNotShort(s: string)
    requires StartsWith(s, WatchPrefix)
    ensures !StartsWith(s, ShortPrefix)
  {
    assert s[8] == WatchPrefix[8] != ShortPrefix[8];
  }

  /** Trimming a watch URL cannot turn it into a short link. */
  lemma StrippedWatchIsNotShort(n: string)
    requires StartsWith(n, WatchPrefix)
    ensures !StartsWith(Strip(n), ShortPrefix)
  {
    assert n[0] == 'h';
    assert TrimStart(n) == n;
    var s := TrimEnd(n);
    if |s| >= |ShortPrefix| {
      assert s[8] == n[8] == WatchPrefix[8];
    }
  }

  /**
   * A second normalisation only trims: after the first, the URL is never a short
   * link any more, so at most trailing white space kept before a `?` is removed.
   */
  lemma NormalizeTwiceOnlyStrips(url: Option<string>)
    ensures Normalize(Some(Normalize(url))) == Strip(Normalize(url))
  {
    var u := Strip(url.GetOr(""));
    var n := Normalize(url);
    if StartsWith(u, ShortPrefix) {
      NormalizeShortLink(url.GetOr(""));
      StrippedWatchIsNotShort(n);
    } else {
      StripIdempotent(url.GetOr(""));
    }
  }

  /** A rewritten short link is a watch URL. */
  lemma NormalizeShortIsWatch(url: Option<string>)
    requires StartsWith(Strip(url.GetOr("")), ShortPrefix)
    ensures StartsWith(Normalize(url), WatchPrefix)
  {
    NormalizeShortLink(url.GetOr(""));
    assert url == Some(url.GetOr(""));
  }

  /** A normalised URL never starts with white space. */
  lemma NormalizeStartsClean(url: Option<string>)
    ensures Normalize(url) == [] || !IsSpace(Normalize(url)[0])
  {
    if StartsWith(Strip(url.GetOr("")), ShortPrefix) {
      NormalizeShortIsWatch(url);
      assert Normalize(url)[0] == WatchPrefix[0];
    } else if Normalize(url) != [] {
      StripEdges(url.GetOr(""));
    }
  }

  /** Normalisation is idempotent on a URL exactly when its result has no trailing white space. */
  lemma NormalizeIdempotentIff(url: Option<string>)
    ensures Normalize(Some(Normalize(url))) == Normalize(url)
        <==> (Normalize(url) == [] || !IsSpace(Normalize(url)[|Normalize(url)| - 1]))
  {
    NormalizeTwiceOnlyStrips(url);
    NormalizeStartsClean(url);
    StripFixedPoint(Normalize(url));
  }

  /** Idempotence fails in general: white space before the query survives the first call only. */
  lemma NormalizeNotIdempotent(url: string)
    requires url == "https://youtu.be/abc ?x"
    ensures Normalize(Some(url)) == "https://www.youtube.com/watch?v=abc "
    ensures Normalize(Some(Normalize(Some(url)))) != Normalize(Some(url))
  {
    assert url[17..21] == "abc ";
    MissingFirstChar("abc ", ShortPrefix);
    NormalizeTrimmedShortLink(url, 21);
    NormalizeIdempotentIff(Some(url));
  }

  /** Every URL that starts with the watch prefix is accepted. */
  lemma WatchUrlAccepted(n: string)
    requires StartsWith(n, WatchPrefix)
    ensures IsYoutubeUrl(Some(n))
  {
    var host := "youtube.com/";
    assert n[12..24] == WatchPrefix[12..24] == host;
    LowerSlice(n, 12, 24);
    assert Lower(host) == host;
    ContainsWitness(Lower(n), host, 12);
  }

  /** Every URL the short-link rewrite produces is accepted as a YouTube URL. */
  lemma ShortLinkAccepted(url: string)
    requires StartsWith(Strip(url), ShortPrefix)
    ensures IsYoutubeUrl(Some(Normalize(Some(url))))
  {
    NormalizeShortLink(url);
    WatchUrlAccepted(Normalize(Some(url)));
  }

  /** The short host is accepted in any letter case. */
  lemma AcceptsShortHost(url: string)
    requires url == "HTTPS://YOUTU.BE/ABC"
    ensures IsYoutubeUrl(Some(url))
  {
    assert url[8..17] == "YOUTU.BE/";
    LowerSlice(url, 8, 17);
    assert Lower("YOUTU.BE/") == "youtu.be/";
    ContainsWitness(Lower(url), "youtu.be/", 8);
  }

  /** Another video host is rejected, and so is a missing URL. */
  lemma RejectsOtherHost(url: string)
    requires url == "https://vimeo.com/123"
    ensures !IsYoutubeUrl(Some(url))
    ensures !IsYoutubeUrl(None)
  {
    assert 'y' !in url && 'Y' !in url;
    LowerMissing(url, 'y');
    MissingFirstChar(Lower(url), "youtube.com/");
    MissingFirstChar(Lower(url), "youtu.be/");
  }
}
