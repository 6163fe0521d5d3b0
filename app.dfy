/**
 * The application component's state and its event handlers. `AppState` holds the
 * fields the handlers overwrite; each handler is proved against `Apply`, the same
 * transition stated as a function from the old state and the event to the new one.
 */
module App {
  import opened Wrappers
  import opened Text
  import opened Types
  import opened Catalog

  /** Every field of the application state, with the log of tabs opened by redirects. */
  datatype AppView = AppView(
    videos: seq<VideoItem>,
    selectedVideo: Option<VideoItem>,
    detectedItems: seq<DetectedItem>,
    currentScreenshot: Option<string>,
    isScanning: bool,
    isUploading: bool,
    redirectingTo: Option<string>,
    librarySearch: string,
    openedTabs: seq<string>)

  /** The user actions and callbacks that change the application state. */
  datatype AppEvent =
    | Redirect(query: string)
    | Upload(file: Option<VideoFile>, env: UploadEnv)
    | ScanStart
    | ScanComplete(items: seq<DetectedItem>, screenshot: string)
    | Select(video: VideoItem)
    | Deselect
    | EditLibrarySearch(text: string)

  /** The state when the page loads. */
  function InitialView(loadTime: int, media: seq<Media>): AppView
    requires |media| == 3
  {
    AppView(DefaultVideos(loadTime, media), None, [], None, false, false, None, "", [])
  }

  /** `s` ends `t`. */
  ghost predicate IsSuffix<T>(s: seq<T>, t: seq<T>) {
    |s| <= |t| && t[|t| - |s|..] == s
  }

  /**
   * The state after one event. The catalog only grows, by at most one video at its
   * front; only a redirect opens a tab; a scan callback leaves the catalog and the
   * selection alone.
   */
  function Apply(s: AppView, e: AppEvent): (r: AppView)
    ensures |s.videos| <= |r.videos| <= |s.videos| + 1
    ensures r.openedTabs == s.openedTabs + (if e.Redirect? then [SearchUrl(e.query)] else [])
    ensures e.ScanStart? || e.ScanComplete? ==> r.videos == s.videos && r.selectedVideo == s.selectedVideo
  {
    match e
    case Redirect(q) =>
      s.(redirectingTo := Some(q), openedTabs := s.openedTabs + [SearchUrl(q)])
    case Upload(file, env) =>
      if file.None? then s
      else
        var v := UploadedVideo(file.value, env);
        s.(videos := [v] + s.videos, isUploading := false, selectedVideo := Some(v))
    case ScanStart =>
      s.(isScanning := true, detectedItems := [], currentScreenshot := None, redirectingTo := None)
    case ScanComplete(items, shot) =>
      s.(detectedItems := items, currentScreenshot := Some(shot), isScanning := false)
    case Select(v) => s.(selectedVideo := Some(v))
    case Deselect => s.(selectedVideo := None)
    case EditLibrarySearch(text) => s.(librarySearch := text)
  }

  /** The state after a run of events, in order. */
  function ApplyAll(s: AppView, events: seq<AppEvent>): AppView
    decreases |events|
  {
    if events == [] then s else ApplyAll(Apply(s, events[0]), events[1..])
  }

  /** The page offers the event: a video can be picked only from the cards the library shows. */
  predicate Enabled(s: AppView, e: AppEvent) {
    e.Select? ==> e.video in FilterVideos(s.videos, s.librarySearch)
  }

  /**
   * What holds between handlers: the upload flag is never seen set, the selected
   * video is in the catalog, every id is a seed id or an upload id, no result is
   * shown while a scan runs, and a redirect indicator names the last search opened.
   */
  ghost predicate Consistent(s: AppView) {
    && !s.isUploading
    && (s.selectedVideo.Some? ==> s.selectedVideo.value in s.videos)
    && (forall v :: v in s.videos ==> StartsWith(v.id, "def-") || StartsWith(v.id, "user-"))
    && (s.isScanning ==> s.detectedItems == [] && s.currentScreenshot == None)
    && (s.redirectingTo.Some? ==>
          s.openedTabs != [] && s.openedTabs[|s.openedTabs| - 1] == SearchUrl(s.redirectingTo.value))
  }

  lemma InitialConsistent(loadTime: int, media: seq<Media>)
    requires |media| == 3
    ensures Consistent(InitialView(loadTime, media))
  {
  }

  /** Every event the page offers keeps the state consistent. */
  lemma ApplyPreservesConsistent(s: AppView, e: AppEvent)
    requires Consistent(s) && Enabled(s, e)
    ensures Consistent(Apply(s, e))
  {
    if e.Upload? && e.file.Some? {
      var v := UploadedVideo(e.file.value, e.env);
      assert v.id[..5] == "user-";
    }
  }

  /** One event keeps the old catalog as the tail of the new one. */
  lemma ApplyKeepsTail(s: AppView, e: AppEvent)
    ensures IsSuffix(s.videos, Apply(s, e).videos)
  {
    var t := Apply(s, e).videos;
    assert t[|t| - |s.videos|..] == s.videos;
  }

  lemma SuffixTransitive<T>(a: seq<T>, b: seq<T>, c: seq<T>)
    requires IsSuffix(a, b) && IsSuffix(b, c)
    ensures IsSuffix(a, c)
  {
    assert c[|c| - |a|..] == c[|c| - |b|..][|b| - |a|..];
  }

  /**
   * The catalog only grows at the front: after any run of events the old catalog,
   * seed videos included, is still its tail, in the same order.
   */
  lemma {:induction false} CatalogKeepsTail(s: AppView, events: seq<AppEvent>)
    ensures IsSuffix(s.videos, ApplyAll(s, events).videos)
    decreases |events|
  {
    if events == [] {
      assert s.videos[|s.videos| - |s.videos|..] == s.videos;
    } else {
      var s' := Apply(s, events[0]);
      CatalogKeepsTail(s', events[1..]);
      ApplyKeepsTail(s, events[0]);
      SuffixTransitive(s.videos, s'.videos, ApplyAll(s', events[1..]).videos);
    }
  }

  /**
   * An upload of a picked file puts exactly one new video at the head of the
   * catalog, keeps the old list behind it, selects the new video and leaves the
   * upload flag clear; picking no file changes nothing.
   */
  lemma UploadPrepends(s: AppView, file: Option<VideoFile>, env: UploadEnv)
    ensures var s' := Apply(s, Upload(file, env));
      && (file.None? ==> s' == s)
      && (file.Some? ==>
            && |s'.videos| == |s.videos| + 1
            && s'.videos[1..] == s.videos
            && s'.videos[0].id == UploadId(env.idClock)
            && s'.videos[0].title == TitleOf(file.value.name)
            && ShowsUploadBadge(s'.videos[0])
            && s'.selectedVideo == Some(s'.videos[0])
            && !s'.isUploading
            && s'.detectedItems == s.detectedItems
            && s'.redirectingTo == s.redirectingTo)
  {
    if file.Some? {
      assert UploadId(env.idClock)[0] == 'u';
    }
  }

  /**
   * A scan started and then completed leaves exactly the completion's items and
   * screenshot, no redirect indicator, scanning off, and catalog and selection as
   * they were.
   */
  lemma ScanRoundTrip(s: AppView, items: seq<DetectedItem>, shot: string)
    ensures var s' := Apply(Apply(s, ScanStart), ScanComplete(items, shot));
      && s'.detectedItems == items
      && s'.currentScreenshot == Some(shot)
      && !s'.isScanning
      && s'.redirectingTo == None
      && s'.videos == s.videos
      && s'.selectedVideo == s.selectedVideo
  {
  }

  /**
   * The completion callback has no guard against stale results: a scan completed
   * after another video was selected still overwrites the results.
   */
  lemma LateCompletionIsAccepted(s: AppView, other: VideoItem, items: seq<DetectedItem>, shot: string)
    ensures var s' := Apply(Apply(Apply(s, ScanStart), Select(other)), ScanComplete(items, shot));
      s'.selectedVideo == Some(other) && s'.detectedItems == items && s'.currentScreenshot == Some(shot)
  {
  }

  /** The application state, field by field, as the component holds it. */
  class AppState {
    var videos: seq<VideoItem>
    var selectedVideo: Option<VideoItem>
    var detectedItems: seq<DetectedItem>
    var currentScreenshot: Option<string>
    var isScanning: bool
    var isUploading: bool
    var redirectingTo: Option<string>
    var librarySearch: string
    /** The URLs opened in new browsing contexts, oldest first. */
    var openedTabs: seq<string>
    /** The fixed thumbnail locator given to uploaded videos. */
    const uploadThumbnail: string

    function Snapshot(): AppView
      reads this
    {
      AppView(videos, selectedVideo, detectedItems, currentScreenshot, isScanning,
              isUploading, redirectingTo, librarySearch, openedTabs)
    }

    /** The library cards for the current search text. */
    function FilteredVideos(): (r: seq<VideoItem>)
      reads this
      ensures forall v :: v in r <==> v in videos && Matches(v, librarySearch)
      ensures |r| <= |videos|
    {
      FilterVideos(videos, librarySearch)
    }

    constructor (loadTime: int, media: seq<Media>, thumbnail: string)
      requires |media| == 3
      ensures Snapshot() == InitialView(loadTime, media)
      ensures uploadThumbnail == thumbnail
    {
      videos := DefaultVideos(loadTime, media);
      selectedVideo := None;
      detectedItems := [];
      currentScreenshot := None;
      isScanning := false;
      isUploading := false;
      redirectingTo := None;
      librarySearch := "";
      openedTabs := [];
      uploadThumbnail := thumbnail;
    }

    /** Opens the marketplace search for `query` and shows it as the redirect target. */
    method PerformRedirection(query: string) returns (url: string)
      modifies this
      ensures url == SearchUrl(query)
      ensures Snapshot() == Apply(old(Snapshot()), Redirect(query))
    {
      url := SearchUrl(query);
      redirectingTo := Some(query);
      openedTabs := openedTabs + [url];
    }

    /** "Shop Now" on the redirect banner, shown while the redirect target is a non-empty string. */
    method ShopNow() returns (url: string)
      requires redirectingTo.Some? && redirectingTo.value != ""
      modifies this
      ensures url == SearchUrl(old(redirectingTo).value)
      ensures Snapshot() == Apply(old(Snapshot()), Redirect(old(redirectingTo).value))
    {
      url := PerformRedirection(redirectingTo.value);
    }

    /** A change of the upload input: `file` is its first file, if any. */
    method HandleFileUpload(file: Option<VideoFile>, idClock: nat, stampClock: int,
                            dateText: string, objectUrl: string)
      modifies this
      ensures Snapshot() ==
        Apply(old(Snapshot()), Upload(file, UploadEnv(idClock, stampClock, dateText, objectUrl, uploadThumbnail)))
    {
      if file.None? {
        return;
      }
      isUploading := true;
      var newVideo := UploadedVideo(file.value,
        UploadEnv(idClock, stampClock, dateText, objectUrl, uploadThumbnail));
      videos := [newVideo] + videos;
      isUploading := false;
      selectedVideo := Some(newVideo);
    }

    method HandleScanStart()
      modifies this
      ensures Snapshot() == Apply(old(Snapshot()), ScanStart)
    {
      isScanning := true;
      detectedItems := [];
      currentScreenshot := None;
      redirectingTo := None;
    }

    method HandleScanComplete(items: seq<DetectedItem>, screenshot: string)
      modifies this
      ensures Snapshot() == Apply(old(Snapshot()), ScanComplete(items, screenshot))
    {
      detectedItems := items;
      currentScreenshot := Some(screenshot);
      isScanning := false;
    }

    /** A click on a library card. */
    method SelectVideo(video: VideoItem)
      requires video in FilteredVideos()
      modifies this
      ensures Snapshot() == Apply(old(Snapshot()), Select(video))
    {
      selectedVideo := Some(video);
    }

    /** A click on the logo. */
    method GoHome()
      modifies this
      ensures Snapshot() == Apply(old(Snapshot()), Deselect)
    {
      selectedVideo := None;
    }

    /** "Library" in the navigation bar and "Explore Library": back to the catalog view. */
    method ScrollToBrowse()
      modifies this
      ensures Snapshot() == Apply(old(Snapshot()), Deselect)
    {
      selectedVideo := None;
    }

    /** Typing in the library search box. */
    method SetLibrarySearch(text: string)
      modifies this
      ensures Snapshot() == Apply(old(Snapshot()), EditLibrarySearch(text))
    {
      librarySearch := text;
    }
  }
}
