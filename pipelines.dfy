/**
 * The item pipelines: `GumtreeScraperPipeline.process_item`, which passes
 * items through, and `CustomImagePipeline.get_media_requests`, which turns
 * the comma-separated `image_urls` field into one download request per URL.
 * A request is modelled by its URL.
 */
module Pipelines {
  import opened Strings

  /** A scraped item: field name to field value. */
  type Item = map<string, string>

  const ImageUrlsField: string := "image_urls"

  /** `GumtreeScraperPipeline.process_item`: hands the item on untouched. */
  function ProcessItem(item: Item): (r: Item)
    ensures r == item
  {
    item
  }

  /** Number of occurrences of `c` in `s`. */
  function Count(s: string, c: char): nat
  {
    if s == [] then 0 else (if s[0] == c then 1 else 0) + Count(s[1..], c)
  }

  /** Python's `s.split(sep)` for a one-character separator: no trimming, no dropping of empty pieces. */
  function Split(s: string, sep: char): (parts: seq<string>)
    ensures |parts| >= 1
  {
    if s == [] then [[]]
    else
      var rest := Split(s[1..], sep);
      if s[0] == sep then [[]] + rest else [[s[0]] + rest[0]] + rest[1..]
  }

  /** `get_media_requests`: nothing for a missing or empty field, else one URL per comma-separated piece. */
  function MediaRequests(item: Item): (urls: seq<string>)
    ensures ImageUrlsField !in item || item[ImageUrlsField] == [] ==> urls == []
    ensures ImageUrlsField in item && item[ImageUrlsField] != [] ==>
      && |urls| == Count(item[ImageUrlsField], ',') + 1
      && Join(",", urls) == item[ImageUrlsField]
      && forall i :: 0 <= i < |urls| ==> ',' !in urls[i]
  {
    if ImageUrlsField !in item || item[ImageUrlsField] == [] then []
    else
      var field := item[ImageUrlsField];
      SplitCount(field, ',');
      JoinSplit(field, ',');
      SplitPiecesHaveNoSeparator(field, ',');
      Split(field, ',')
  }

  // ---------------------------------------------------------------- lemmas

  /** `s.split(sep)` has one more piece than `s` has separators. */
  lemma {:induction false} SplitCount(s: string, sep: char)
    ensures |Split(s, sep)| == Count(s, sep) + 1
  {
    if s != [] {
      SplitCount(s[1..], sep);
    }
  }

  /** No piece of `s.split(sep)` contains `sep`. */
  lemma {:induction false} SplitPiecesHaveNoSeparator(s: string, sep: char)
    ensures forall i :: 0 <= i < |Split(s, sep)| ==> sep !in Split(s, sep)[i]
  {
    if s != [] {
      SplitPiecesHaveNoSeparator(s[1..], sep);
      var rest := Split(s[1..], sep);
      if s[0] != sep {
        assert Split(s, sep) == [[s[0]] + rest[0]] + rest[1..];
        assert sep !in rest[0];
      }
    }
  }

  /** Prepending a character to the first part prepends it to the join. */
  lemma JoinPrependToFirst(sep: string, c: char, parts: seq<string>)
    requires |parts| >= 1
    ensures Join(sep, [[c] + parts[0]] + parts[1..]) == [c] + Join(sep, parts)
  {
    JoinCons(sep, [c] + parts[0], parts[1..]);
    JoinCons(sep, parts[0], parts[1..]);
    assert [parts[0]] + parts[1..] == parts;
  }

  /** `sep.join(s.split(sep)) == s`: the pieces, in order, are the whole field. */
  lemma {:induction false} JoinSplit(s: string, sep: char)
    ensures Join([sep], Split(s, sep)) == s
  {
    if s != [] {
      var rest := Split(s[1..], sep);
      JoinSplit(s[1..], sep);
      assert Join([sep], rest) == s[1..];
      if s[0] == sep {
        assert Split(s, sep) == [[]] + rest;
        JoinCons([sep], [], rest);
      } else {
        assert Split(s, sep) == [[s[0]] + rest[0]] + rest[1..];
        JoinPrependToFirst([sep], s[0], rest);
      }
      assert [s[0]] + s[1..] == s;
    }
  }

  /** Splitting `piece + sep + tail`, where the piece holds no separator, yields the piece first. */
  lemma {:induction false} SplitAfterPiece(piece: string, sep: char, tail: string)
    requires sep !in piece
    ensures Split(piece + [sep] + tail, sep) == [piece] + Split(tail, sep)
  {
    if piece == [] {
      assert piece + [sep] + tail == [sep] + tail;
      assert ([sep] + tail)[1..] == tail;
    } else {
      var s := piece + [sep] + tail;
      assert s[1..] == piece[1..] + [sep] + tail;
      SplitAfterPiece(piece[1..], sep, tail);
      assert [piece[0]] + piece[1..] == piece;
    }
  }

  /** A separator-free string is its own only piece. */
  lemma {:induction false} SplitWithoutSeparator(s: string, sep: char)
    requires sep !in s
    ensures Split(s, sep) == [s]
  {
    if s != [] {
      SplitWithoutSeparator(s[1..], sep);
      assert [s[0]] + s[1..] == s;
    }
  }

  /** `sep.join(parts).split(sep) == parts` when no part holds the separator. */
  lemma {:induction false} SplitJoin(parts: seq<string>, sep: char)
    requires |parts| >= 1
    requires forall i :: 0 <= i < |parts| ==> sep !in parts[i]
    ensures Split(Join([sep], parts), sep) == parts
  {
    if |parts| == 1 {
      SplitWithoutSeparator(parts[0], sep);
    } else {
      SplitJoin(parts[1..], sep);
      SplitAfterPiece(parts[0], sep, Join([sep], parts[1..]));
      assert [parts[0]] + parts[1..] == parts;
    }
  }

  /** A string ending in the separator splits into pieces whose last one is empty. */
  lemma {:induction false} SplitTrailingSeparator(s: string, sep: char)
    requires s != [] && s[|s| - 1] == sep
    ensures Split(s, sep)[|Split(s, sep)| - 1] == []
  {
    var prefix := s[..|s| - 1];
    assert s == prefix + [sep];
    if sep in prefix {
      var parts := Split(prefix, sep);
      JoinSplit(prefix, sep);
      SplitPiecesHaveNoSeparator(prefix, sep);
      var extended := parts + [[]];
      JoinAppendEmpty(parts, sep);
      SplitJoin(extended, sep);
    } else {
      SplitAfterPiece(prefix, sep, []);
      assert prefix + [sep] + [] == s;
    }
  }

  lemma {:induction false} JoinAppendEmpty(parts: seq<string>, sep: char)
    requires |parts| >= 1
    ensures Join([sep], parts + [[]]) == Join([sep], parts) + [sep]
  {
    if |parts| == 1 {
      JoinCons([sep], parts[0], [[]]);
      assert parts + [[]] == [parts[0]] + [[]];
    } else {
      JoinAppendEmpty(parts[1..], sep);
      assert parts + [[]] == [parts[0]] + (parts[1..] + [[]]);
      JoinCons([sep], parts[0], parts[1..] + [[]]);
    }
  }

  /** A field with a trailing comma yields an empty final URL: pieces are neither trimmed nor filtered. */
  lemma MediaRequestsTrailingComma(item: Item)
    requires ImageUrlsField in item && item[ImageUrlsField] != []
    requires item[ImageUrlsField][|item[ImageUrlsField]| - 1] == ','
    ensures MediaRequests(item) != [] && MediaRequests(item)[|MediaRequests(item)| - 1] == []
  {
    SplitTrailingSeparator(item[ImageUrlsField], ',');
  }

  /** The URLs determine the field: a field that is the comma-join of comma-free URLs yields exactly those URLs. */
  lemma MediaRequestsOfJoin(item: Item, urls: seq<string>)
    requires |urls| >= 1 && ImageUrlsField in item
    requires item[ImageUrlsField] == Join(",", urls) != []
    requires forall i :: 0 <= i < |urls| ==> ',' !in urls[i]
    ensures MediaRequests(item) == urls
  {
    assert "," == [','];
    SplitJoin(urls, ',');
  }
}
