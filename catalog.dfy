/**
 * The pure rules of the application component: the seed catalog, the search URL
 * a redirect opens, the video an upload creates, the "Your Upload" badge and the
 * library filter.
 */
module Catalog {
  import opened Wrappers
  import opened Seqs
  import opened Text
  import opened Types
  import opened UriCoding

  /** The marketplace search every redirect opens, before the encoded query. */
  const SearchUrlPrefix: string := "https://www.amazon.com/s?k="

  /** The URL `performRedirection(query)` opens in a new browsing context. */
  function SearchUrl(query: string): (url: string)
    ensures StartsWith(url, SearchUrlPrefix)
  {
    SearchUrlPrefix + EncodeUriComponent(query)
  }

  /**
   * The `k` value of a search URL is the whole rest of the URL: it holds no `&` or
   * `#` that would end it, and percent-decoding it gives the query back.
   */
  lemma SearchUrlRoundTrip(query: string)
    ensures var url := SearchUrl(query);
      (forall i :: |SearchUrlPrefix| <= i < |url| ==> url[i] != '&' && url[i] != '#') &&
      DecodeUriComponent(url[|SearchUrlPrefix|..]) == Some(query)
  {
    var url := SearchUrl(query);
    var enc := EncodeUriComponent(query);
    assert url[|SearchUrlPrefix|..] == enc;
    forall i | |SearchUrlPrefix| <= i < |url|
      ensures url[i] != '&' && url[i] != '#'
    {
      assert url[i] == enc[i - |SearchUrlPrefix|];
    }
    DecodeEncode(query);
  }

  /** Distinct queries open distinct URLs. */
  lemma SearchUrlInjective(a: string, b: string)
    requires SearchUrl(a) == SearchUrl(b)
    ensures a == b
  {
    assert SearchUrl(a)[|SearchUrlPrefix|..] == EncodeUriComponent(a);
    assert SearchUrl(b)[|SearchUrlPrefix|..] == EncodeUriComponent(b);
    EncodeInjective(a, b);
  }

  /** The locators of a video and its thumbnail, kept opaque. */
  datatype Media = Media(videoUrl: string, thumbnailUrl: string)

  /** The titles and descriptions of the three seed videos. */
  const SeedTitles: seq<string> := ["Modern Interior & Fashion", "Workspace & Tech", "Outdoor Adventure"]
  const SeedDescriptions: seq<string> := [
    "A dense scene with various furniture, lighting fixtures, and high-end fashion.",
    "Identify laptops, peripherals, desk accessories, and minimalist office decor.",
    "Technical gear, watches, and specialized sports equipment."]

  /** The three seed videos, stamped from the clock reading taken when the page loads. */
  function DefaultVideos(loadTime: int, media: seq<Media>): (vs: seq<VideoItem>)
    requires |media| == 3
    ensures |vs| == 3
    ensures vs[0].id == "def-1" && vs[1].id == "def-2" && vs[2].id == "def-3"
    ensures forall i :: 0 <= i < 3 ==>
      && vs[i].title == SeedTitles[i]
      && vs[i].description == SeedDescriptions[i]
      && vs[i].videoUrl == media[i].videoUrl
      && vs[i].thumbnailUrl == media[i].thumbnailUrl
      && vs[i].timestamp == loadTime - 10000 * i
  {
    [ VideoItem("def-1", SeedTitles[0], SeedDescriptions[0], media[0].videoUrl, media[0].thumbnailUrl, loadTime),
      VideoItem("def-2", SeedTitles[1], SeedDescriptions[1], media[1].videoUrl, media[1].thumbnailUrl, loadTime - 10000),
      VideoItem("def-3", SeedTitles[2], SeedDescriptions[2], media[2].videoUrl, media[2].thumbnailUrl, loadTime - 20000) ]
  }

  /** The file the user picked. */
  datatype VideoFile = VideoFile(name: string)

  /**
   * What the browser supplies to an upload: the clock read for the id, the clock
   * read for the timestamp, the locale date text, the object URL made for the file
   * and the fixed thumbnail locator.
   */
  datatype UploadEnv = UploadEnv(
    idClock: nat,
    stampClock: int,
    dateText: string,
    objectUrl: string,
    thumbnailUrl: string)

  /** `file.name.split('.')[0]`. */
  function TitleOf(fileName: string): (t: string)
    ensures |t| <= |fileName| && t == fileName[..|t|] && '.' !in t
  {
    FirstField(fileName, '.');
    Split(fileName, '.')[0]
  }

  /**
   * An uploaded video's title is the file name up to the first `.`: the whole name
   * when it has no `.`, and empty when it starts with `.`.
   */
  lemma TitleRule(fileName: string)
    ensures var t := TitleOf(fileName);
      |t| <= |fileName| && t == fileName[..|t|] && '.' !in t &&
      (|t| < |fileName| ==> fileName[|t|] == '.') &&
      ('.' !in fileName ==> t == fileName) &&
      (fileName != [] && fileName[0] == '.' ==> t == [])
  {
    FirstField(fileName, '.');
  }

  /** The id of an uploaded video: `user-` and the clock reading. */
  function UploadId(clock: nat): (id: string)
    ensures |id| > 5 && id[..5] == "user-"
    ensures forall i :: 5 <= i < |id| ==> IsDigit(id[i])
  {
    "user-" + Decimal(clock)
  }

  /** Uploads made at distinct clock readings get distinct ids. */
  lemma UploadIdInjective(a: nat, b: nat)
    requires UploadId(a) == UploadId(b)
    ensures a == b
  {
    assert UploadId(a)[5..] == Decimal(a);
    assert UploadId(b)[5..] == Decimal(b);
    DecimalInjective(a, b);
  }

  /** The catalog entry `handleFileUpload` builds for a picked file. */
  function UploadedVideo(file: VideoFile, env: UploadEnv): (v: VideoItem)
    ensures StartsWith(v.id, "user-") && ShowsUploadBadge(v)
    ensures v.title == TitleOf(file.name) && v.videoUrl == env.objectUrl && v.timestamp == env.stampClock
  {
    VideoItem(
      UploadId(env.idClock),
      TitleOf(file.name),
      "Uploaded on " + env.dateText + ". Deep Vision Enabled.",
      env.objectUrl,
      env.thumbnailUrl,
      env.stampClock)
  }

  /** The "Your Upload" badge: shown on every card whose id does not start with `def`. */
  predicate ShowsUploadBadge(v: VideoItem): (shown: bool)
    ensures StartsWith(v.id, "def-") ==> !shown
    ensures StartsWith(v.id, "user-") ==> shown
  {
    assert StartsWith(v.id, "def-") ==> v.id[..3] == "def-"[..3];
    assert StartsWith(v.id, "user-") ==> v.id[0] == 'u';
    !StartsWith(v.id, "def")
  }

  /** Every uploaded video carries the badge; no seed video does. */
  lemma BadgeSeparatesUploads(file: VideoFile, env: UploadEnv, loadTime: int, media: seq<Media>)
    requires |media| == 3
    ensures ShowsUploadBadge(UploadedVideo(file, env))
    ensures forall v :: v in DefaultVideos(loadTime, media) ==> !ShowsUploadBadge(v)
  {
    assert UploadId(env.idClock)[0] == 'u';
  }

  /** A video matches the library search when its title or description contains it, ignoring case. */
  predicate Matches(v: VideoItem, query: string): (m: bool)
    ensures query == "" ==> m
  {
    IncludesEmpty(Lower(v.title));
    Includes(Lower(v.title), Lower(query)) || Includes(Lower(v.description), Lower(query))
  }

  /** A search that occurs in the title or description as written matches, whatever the case. */
  lemma MatchesExactCase(v: VideoItem, query: string)
    requires Includes(v.title, query) || Includes(v.description, query)
    ensures Matches(v, query)
  {
    if Includes(v.title, query) {
      IncludesLower(v.title, query);
    } else {
      IncludesLower(v.description, query);
    }
  }

  /** The search ignores the case of the query: lower-casing it first changes no match. */
  lemma MatchesIgnoresQueryCase(v: VideoItem, query: string)
    ensures Matches(v, query) <==> Matches(v, Lower(query))
  {
    LowerIdempotent(query);
  }

  /** `videos.filter(...)`: the library view for a search text. */
  function FilterVideos(videos: seq<VideoItem>, query: string): (r: seq<VideoItem>)
    ensures forall v :: v in r <==> v in videos && Matches(v, query)
    ensures forall v :: multiset(r)[v] == if Matches(v, query) then multiset(videos)[v] else 0
    ensures IsSubsequence(r, videos) && |r| <= |videos|
    decreases |videos|
  {
    if videos == [] then []
    else
      var rest := FilterVideos(videos[1..], query);
      assert videos == [videos[0]] + videos[1..];
      assert multiset(videos) == multiset{videos[0]} + multiset(videos[1..]);
      if Matches(videos[0], query) then
        assert ([videos[0]] + rest)[1..] == rest;
        assert multiset([videos[0]] + rest) == multiset{videos[0]} + multiset(rest);
        SubsequenceLength([videos[0]] + rest, videos);
        [videos[0]] + rest
      else
        SubsequenceLength(rest, videos);
        rest
  }

  /** When every video matches, the filter keeps the whole catalog in order. */
  lemma {:induction false} FilterKeepsAll(videos: seq<VideoItem>, query: string)
    requires forall v :: v in videos ==> Matches(v, query)
    ensures FilterVideos(videos, query) == videos
    decreases |videos|
  {
    if videos != [] {
      FilterKeepsAll(videos[1..], query);
      assert [videos[0]] + videos[1..] == videos;
    }
  }

  /** The empty search shows every video. */
  lemma FilterEmptyQuery(videos: seq<VideoItem>)
    ensures FilterVideos(videos, "") == videos
  {
    FilterKeepsAll(videos, "");
  }

  /** Filtering the filtered view again changes nothing. */
  lemma FilterIdempotent(videos: seq<VideoItem>, query: string)
    ensures FilterVideos(FilterVideos(videos, query), query) == FilterVideos(videos, query)
  {
    FilterKeepsAll(FilterVideos(videos, query), query);
  }
}
