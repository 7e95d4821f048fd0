/**
 * The session tracker of the measuring extension: the set of tracked videos,
 * kept in step with the video elements of the page; the choice of the main
 * video; the sampling loop that, tick after tick, stores a log of quality
 * snapshots and QoE scores, sends telemetry payloads and asks the QoE service
 * for a score; and the payload counters.
 *
 * The page's elements are objects whose fields the host page changes; a
 * tracker (VideoData) reads its element's live state. Network, storage and
 * clocks are outside the model: what they deliver arrives as parameters.
 */
module Session {
  import opened Util

  // ---------------------------------------------------------------------
  // Values
  // ---------------------------------------------------------------------

  datatype Size = Size(width: int, height: int)

  /** What a video's element reports: media size, domain, play start time, thumbnail, title. */
  datatype VideoInfo = VideoInfo(mediaSize: int, domainName: string, startTime: int, thumbnail: string, title: string)

  /** A quality snapshot: the playback metrics, with viewport and resolution. */
  datatype Quality = Quality(metrics: map<string, int>, viewport: Size, resolution: Size)

  /** A QoE score received from the QoE service, with the time it arrived. */
  datatype QoeSample = QoeSample(date: int, qoe: real)

  /** An entry of the stored log: a QoE score, or a quality snapshot. */
  datatype LogEntry =
    | QoeEntry(date: int, qoe: real)
    | QualityEntry(date: int, quality: Quality)

  /** The record stored per (session, video). */
  datatype Record = Record(
    userAgent: string, location: string, mediaSize: int, domainName: string,
    startTime: int, endTime: int, thumbnail: string, title: string, log: seq<LogEntry>)

  /** What `video.get()` contributes to a payload. */
  datatype VideoSnapshot = VideoSnapshot(videoId: string, info: VideoInfo, quality: Quality)

  /** The telemetry payload sent to the collector. */
  datatype Payload = Payload(
    version: int, date: string, startTime: int, endTime: int, session: string,
    location: string, userAgent: string, appVersion: string, sequence: int,
    video: seq<VideoSnapshot>, resourceTiming: seq<int>)

  /** The configuration constants the loop reads. */
  datatype Config = Config(
    transInterval: int, sendDataCountForQoe: int, prevCountForQoe: int,
    maxCountForQoe: int, latestQoeUpdate: int, maxLog: int)

  /**
   * The QoE service's answer: none (network failure, a status that is not
   * ok, or a body that is not JSON), or a JSON body whose `qoe` field
   * `parseFloat` turned into a number or into `NaN` (`None`).
   */
  datatype QoeReply = NoReply | Body(parsed: Option<real>)

  /**
   * What the world supplies during one tick: whether the main video is
   * available, what its getters report (details and current quality), the
   * QoE service's reply if one is asked for, the clocks, the page location,
   * and whether `get_main_video()` still returns the same tracker once the
   * tick's waits are over.
   */
  datatype Observation = Observation(
    available: bool, info: VideoInfo, quality: Quality, reply: QoeReply, now: int, perfNow: int,
    isoDate: string, location: string, receivedAt: int, mainKept: bool)

  /** What one tick did: send, ask for a score, store, and the score it got. */
  datatype TickRecord = TickRecord(data: bool, request: bool, stored: bool, qoe: Option<real>)

  /** The payload counters of a session. */
  datatype Counters = Counters(startTime: int, endTime: int, sequence: int)

  // ---------------------------------------------------------------------
  // Page elements and trackers
  // ---------------------------------------------------------------------

  /** A video element of the page, with the live state the host page updates. */
  class Element {
    /** Whether the element has one of the shapes a tracker can wrap. */
    const trackable: bool
    /** Still attached and relevant (`is_stay`). */
    var attached: bool
    /** Currently the video the user watches (`is_main_video`). */
    var main: bool
    /** Ready for measurement (`is_available`). */
    var playable: bool
  }

  /** The tracker of one element. */
  class VideoData {
    const elm: Element
    const videoId: string
    /** The QoE scores received for this video, in arrival order. */
    var latestQoe: seq<QoeSample>
    /** How many times `clear()` released this tracker's resources. */
    var clearCount: nat

    /** `new VideoData(elm, video_id)`; it throws for an element of no known shape. */
    constructor (elm: Element, videoId: string)
      requires elm.trackable
      ensures this.elm == elm && this.videoId == videoId
      ensures latestQoe == [] && clearCount == 0
    {
      this.elm := elm;
      this.videoId := videoId;
      latestQoe := [];
      clearCount := 0;
    }

    predicate IsMainVideo()
      reads elm
    {
      elm.main
    }

    predicate IsAvailable()
      reads elm
    {
      elm.playable
    }

    predicate IsStay()
      reads elm
    {
      elm.attached
    }

    /** `get()` at a tick: the video's id with what its getters report then. */
    function Snapshot(o: Observation): VideoSnapshot {
      VideoSnapshot(videoId, o.info, o.quality)
    }

    method AddLatestQoe(sample: QoeSample)
      modifies this`latestQoe
      ensures latestQoe == old(latestQoe) + [sample]
    {
      latestQoe := latestQoe + [sample];
    }

    method Clear()
      modifies this`clearCount
      ensures clearCount == old(clearCount) + 1
    {
      clearCount := clearCount + 1;
    }
  }

  /** The log saved under `key` in `records`, or none. */
  function LogIn(records: map<(string, string), Record>, key: (string, string)): seq<LogEntry> {
    if key in records then records[key].log else []
  }

  /** The store of session records, keyed by (session id, video id). */
  class Storage {
    var records: map<(string, string), Record>

    /** `storage.cache.log || []`: the log saved last under `key`. */
    function CachedLog(key: (string, string)): seq<LogEntry>
      reads this
    {
      LogIn(records, key)
    }

    method Save(key: (string, string), r: Record)
      modifies this`records
      ensures records == old(records)[key := r]
      ensures CachedLog(key) == r.log
    {
      records := records[key := r];
    }
  }

  // ---------------------------------------------------------------------
  // Tracked-set helpers
  // ---------------------------------------------------------------------

  /** `video.find(e => e.video_elm === elm)` finds something. */
  predicate Tracks(vs: seq<VideoData>, elm: Element) {
    exists k :: 0 <= k < |vs| && vs[k].elm == elm
  }

  /** No two trackers wrap the same element. */
  ghost predicate DistinctElements(vs: seq<VideoData>) {
    forall i, j :: 0 <= i < j < |vs| ==> vs[i].elm != vs[j].elm
  }

  /** A tracker survives `set_video_elms` while its element is listed and it still stays. */
  predicate Stays(v: VideoData, elms: seq<Element>)
    reads v.elm
  {
    v.elm in elms && v.IsStay()
  }

  /** The trackers that survive, in their order. */
  function Survivors(vs: seq<VideoData>, elms: seq<Element>): (r: seq<VideoData>)
    reads set v | v in vs :: v.elm
    ensures forall k :: 0 <= k < |r| ==> r[k] in vs && Stays(r[k], elms)
    ensures forall k :: 0 <= k < |vs| && Stays(vs[k], elms) ==> vs[k] in r
  {
    if vs == [] then []
    else (if Stays(vs[0], elms) then [vs[0]] else []) + Survivors(vs[1..], elms)
  }

  /** `this.video.filter(e => !find(...) || !e.is_stay())`: the trackers to remove, in their order. */
  function Leavers(vs: seq<VideoData>, elms: seq<Element>): (r: seq<VideoData>)
    reads set v | v in vs :: v.elm
    ensures forall k :: 0 <= k < |r| ==> r[k] in vs && !Stays(r[k], elms)
    ensures forall k :: 0 <= k < |vs| && !Stays(vs[k], elms) ==> vs[k] in r
    ensures DistinctElements(vs) ==> DistinctElements(r)
  {
    if vs == [] then []
    else
      var rest := Leavers(vs[1..], elms);
      var r := (if Stays(vs[0], elms) then [] else [vs[0]]) + rest;
      assert DistinctElements(vs) ==> DistinctElements(r) by {
        if DistinctElements(vs) {
          assert DistinctElements(vs[1..]);
          forall k | 0 <= k < |rest| ensures rest[k].elm != vs[0].elm {
            assert rest[k] in vs[1..];
          }
        }
      }
      r
  }

  /** `s` without the members of `gone`. */
  function Without<T(==)>(s: seq<T>, gone: set<T>): seq<T> {
    if s == [] then [] else (if s[0] in gone then [] else [s[0]]) + Without(s[1..], gone)
  }

  lemma {:induction false} WithoutMembers<T>(s: seq<T>, gone: set<T>, x: T)
    ensures x in Without(s, gone) <==> x in s && x !in gone
  {
    if s != [] {
      WithoutMembers(s[1..], gone, x);
    }
  }

  lemma {:induction false} WithoutNothing<T>(s: seq<T>)
    ensures Without(s, {}) == s
  {
    if s != [] {
      WithoutNothing(s[1..]);
    }
  }

  lemma {:induction false} WithoutAbsent<T>(s: seq<T>, gone: set<T>, x: T)
    requires x !in s
    ensures Without(s, gone + {x}) == Without(s, gone)
  {
    if s != [] {
      WithoutAbsent(s[1..], gone, x);
    }
  }

  /** No value occurs twice in `s`. */
  ghost predicate Distinct<T>(s: seq<T>) {
    forall i, j :: 0 <= i < j < |s| ==> s[i] != s[j]
  }

  lemma DistinctTrackers(vs: seq<VideoData>)
    requires DistinctElements(vs)
    ensures Distinct(vs)
  {
  }

  /** Removing one more member is the splice at its index. */
  lemma {:induction false} SpliceOne<T>(s: seq<T>, gone: set<T>, e: T)
    requires Distinct(s) && e in s && e !in gone
    ensures 0 <= IndexOf(Without(s, gone), e)
    ensures Without(s, gone + {e}) == Spliced(Without(s, gone), e)
  {
    if s[0] == e {
      SpliceHead(s, gone, e);
    } else {
      DistinctTail(s);
      assert e in s[1..];
      SpliceOne(s[1..], gone, e);
      SpliceBehindHead(s, gone, e);
    }
  }

  /** The step of `SpliceOne` when `e` is not the first element. */
  lemma SpliceBehindHead<T>(s: seq<T>, gone: set<T>, e: T)
    requires s != [] && s[0] != e
    requires 0 <= IndexOf(Without(s[1..], gone), e)
    requires Without(s[1..], gone + {e}) == Spliced(Without(s[1..], gone), e)
    ensures 0 <= IndexOf(Without(s, gone), e)
    ensures Without(s, gone + {e}) == Spliced(Without(s, gone), e)
  {
    var w' := Without(s[1..], gone);
    var rest := Without(s[1..], gone + {e});
    if s[0] in gone {
      assert Without(s, gone + {e}) == rest;
      assert Without(s, gone) == w';
    } else {
      assert s[0] !in gone + {e};
      assert Without(s, gone + {e}) == [s[0]] + rest;
      assert Without(s, gone) == [s[0]] + w';
      assert e in w';
      SpliceShift(s[0], w', e);
    }
  }

  function Spliced<T(==)>(w: seq<T>, e: T): seq<T>
    requires e in w
  {
    var k := IndexOf(w, e);
    w[..k] + w[k + 1..]
  }

  lemma DistinctTail<T>(s: seq<T>)
    requires Distinct(s) && s != []
    ensures Distinct(s[1..]) && s[0] !in s[1..]
  {
    var t := s[1..];
    forall i, j | 0 <= i < j < |t| ensures t[i] != t[j] {
      assert t[i] == s[i + 1] && t[j] == s[j + 1];
    }
  }

  lemma SpliceHead<T>(s: seq<T>, gone: set<T>, e: T)
    requires Distinct(s) && s != [] && s[0] == e && e !in gone
    ensures 0 <= IndexOf(Without(s, gone), e)
    ensures Without(s, gone + {e}) == Spliced(Without(s, gone), e)
  {
    var t := s[1..];
    DistinctTail(s);
    WithoutAbsent(t, gone, e);
    var w := Without(s, gone);
    assert w == [e] + Without(t, gone);
    assert IndexOf(w, e) == 0;
    assert Spliced(w, e) == w[1..];
    assert Without(s, gone + {e}) == Without(t, gone + {e});
  }

  lemma SpliceShift<T>(a: T, w': seq<T>, e: T)
    requires a != e && e in w'
    ensures Spliced([a] + w', e) == [a] + Spliced(w', e)
  {
    var w := [a] + w';
    assert w[1..] == w';
    var k' := IndexOf(w', e);
    assert IndexOf(w, e) == k' + 1;
    assert w[..k' + 1] == [a] + w'[..k'];
    assert w[k' + 2..] == w'[k' + 1..];
  }

  /** Removing exactly the leavers leaves the survivors. */
  lemma {:induction false} WithoutLeavers(s: seq<VideoData>, elms: seq<Element>, gone: set<VideoData>)
    requires forall v :: v in s ==> (v in gone <==> !Stays(v, elms))
    ensures Without(s, gone) == Survivors(s, elms)
  {
    if s != [] {
      WithoutLeavers(s[1..], elms, gone);
    }
  }

  /** Element `elms[p]` gets a new tracker: it can be wrapped, it is not tracked yet, and it is listed here first. */
  ghost predicate IsNewcomer(tracked: seq<VideoData>, elms: seq<Element>, p: nat)
    requires p < |elms|
  {
    elms[p].trackable && !Tracks(tracked, elms[p]) && elms[p] !in elms[..p]
  }

  /** The positions among the first `n` elements that get a new tracker, ascending. */
  ghost function NewPositions(tracked: seq<VideoData>, elms: seq<Element>, n: nat): (ps: seq<nat>)
    requires n <= |elms|
    ensures forall k :: 0 <= k < |ps| ==> ps[k] < n
  {
    if n == 0 then []
    else NewPositions(tracked, elms, n - 1) + (if IsNewcomer(tracked, elms, n - 1) then [n - 1] else [])
  }

  /** The new positions are exactly the newcomers among the first `n` elements, in ascending order. */
  lemma {:induction false} NewPositionsExact(tracked: seq<VideoData>, elms: seq<Element>, n: nat)
    requires n <= |elms|
    ensures var ps := NewPositions(tracked, elms, n);
            (forall k :: 0 <= k < |ps| ==> IsNewcomer(tracked, elms, ps[k])) &&
            (forall p :: 0 <= p < n ==> (IsNewcomer(tracked, elms, p) <==> p in ps)) &&
            (forall k, l :: 0 <= k < l < |ps| ==> ps[k] < ps[l])
  {
    if n > 0 {
      NewPositionsExact(tracked, elms, n - 1);
    }
  }

  /** The first tracker whose video is the main one: `video.find(e => e.is_main_video())`. */
  function FindMain(vs: seq<VideoData>): (r: Option<nat>)
    reads set v | v in vs :: v.elm
    ensures r.Some? ==> r.value < |vs| && vs[r.value].IsMainVideo() &&
                        forall j :: 0 <= j < r.value ==> !vs[j].IsMainVideo()
    ensures r.None? ==> forall j :: 0 <= j < |vs| ==> !vs[j].IsMainVideo()
  {
    if vs == [] then None
    else if vs[0].IsMainVideo() then Some(0)
    else match FindMain(vs[1..])
      case None => None
      case Some(k) => Some(k + 1)
  }

  // ---------------------------------------------------------------------
  // Derived values
  // ---------------------------------------------------------------------

  /**
   * `userAgent.substr(userAgent.indexOf("/") + 1)`: what follows the first
   * `/`; with no `/`, `indexOf` gives -1 and the whole string is kept.
   */
  function AppVersion(userAgent: string): (r: string)
    ensures '/' !in userAgent ==> r == userAgent
    ensures '/' in userAgent ==>
              exists k :: 0 <= k < |userAgent| && userAgent[k] == '/' && '/' !in userAgent[..k] &&
                          r == userAgent[k + 1..]
  {
    userAgent[IndexOf(userAgent, '/') + 1..]
  }

  /** `_request_qoe`: the parsed score, or nothing when there is no reply or it is `NaN`. */
  function RequestQoe(reply: QoeReply): (q: Option<real>)
    ensures q.Some? <==> reply.Body? && reply.parsed.Some?
    ensures q.Some? ==> q == reply.parsed
  {
    match reply
    case NoReply => None
    case Body(parsed) => parsed
  }

  /** JavaScript truthiness of a score: `null`, `undefined` and 0 are all falsy. */
  predicate Truthy(q: Option<real>) {
    q.Some? && q.value != 0.0
  }

  // ---------------------------------------------------------------------
  // The stored log
  // ---------------------------------------------------------------------

  function EntryDate(e: LogEntry): int {
    e.date
  }

  /** `(storage.cache.log || []).filter(a => !("qoe" in a))`. */
  function DropQoe(log: seq<LogEntry>): (r: seq<LogEntry>)
    ensures forall e :: e in r <==> e in log && e.QualityEntry?
  {
    if log == [] then []
    else (if log[0].QoeEntry? then [] else [log[0]]) + DropQoe(log[1..])
  }

  /** `video.get_latest_qoe()` as log entries. */
  function QoeEntries(samples: seq<QoeSample>): (r: seq<LogEntry>)
    ensures |r| == |samples|
    ensures forall i :: 0 <= i < |r| ==> r[i] == QoeEntry(samples[i].date, samples[i].qoe)
  {
    if samples == [] then [] else [QoeEntry(samples[0].date, samples[0].qoe)] + QoeEntries(samples[1..])
  }

  /** The entries before sorting: old non-QoE entries, the current scores, one new snapshot. */
  function MergedLog(cached: seq<LogEntry>, latest: seq<QoeSample>, now: int, quality: Quality): (r: seq<LogEntry>)
    ensures forall e :: e in r <==> (e in cached && e.QualityEntry?) || e in QoeEntries(latest) ||
                                    e == QualityEntry(now, quality)
  {
    DropQoe(cached) + QoeEntries(latest) + [QualityEntry(now, quality)]
  }

  /**
   * The log `_store_session` saves: the merged entries sorted by date, of
   * which `slice(-max_log)` keeps the newest `max_log` (all of them when
   * `max_log` is 0, as `slice(-0)` is `slice(0)`).
   */
  function StoredLog(cached: seq<LogEntry>, latest: seq<QoeSample>, now: int, quality: Quality, maxLog: int): seq<LogEntry>
  {
    JsSlice(SortBy(MergedLog(cached, latest, now, quality), EntryDate), -maxLog)
  }

  /**
   * What `_store_session` saves as the log: sorted by date, `max_log`
   * entries long when there are that many, taken from the merge, keeping
   * the newest entries, and with no score that is not current.
   */
  lemma StoredLogMeaning(cached: seq<LogEntry>, latest: seq<QoeSample>, now: int, quality: Quality, maxLog: int)
    ensures var r := StoredLog(cached, latest, now, quality, maxLog);
            SortedBy(r, EntryDate)
    ensures var r := StoredLog(cached, latest, now, quality, maxLog);
            var n := |MergedLog(cached, latest, now, quality)|;
            (maxLog > 0 ==> |r| == if maxLog < n then maxLog else n) &&
            (maxLog == 0 ==> |r| == n)
    ensures var r := StoredLog(cached, latest, now, quality, maxLog);
            multiset(r) <= multiset(MergedLog(cached, latest, now, quality))
    ensures var r := StoredLog(cached, latest, now, quality, maxLog);
            forall e, f :: e in multiset(MergedLog(cached, latest, now, quality)) - multiset(r) && f in r ==>
                           e.date <= f.date
    ensures var r := StoredLog(cached, latest, now, quality, maxLog);
            forall e :: e in r && e.QoeEntry? ==> e in QoeEntries(latest)
  {
    var merged := MergedLog(cached, latest, now, quality);
    NewestOfSorted(merged, maxLog);
    MergedQoe(cached, latest, now, quality, StoredLog(cached, latest, now, quality, maxLog));
  }

  /** `slice(-max_log)` of the sorted entries: sorted, of the expected length, and made of the entries. */
  lemma NewestOfSorted(merged: seq<LogEntry>, maxLog: int)
    ensures var r := JsSlice(SortBy(merged, EntryDate), -maxLog);
            SortedBy(r, EntryDate) && multiset(r) <= multiset(merged) && (forall e :: e in r ==> e in merged) &&
            (forall e, f :: e in multiset(merged) - multiset(r) && f in r ==> e.date <= f.date) &&
            (maxLog > 0 ==> |r| == if maxLog < |merged| then maxLog else |merged|) &&
            (maxLog == 0 ==> |r| == |merged|)
  {
    var sorted := SortBy(merged, EntryDate);
    SortBySorted(merged, EntryDate);
    SuffixOfSorted(sorted, merged, JsSlice(sorted, -maxLog));
  }

  /** Every QoE entry taken from the merged log is one of the current scores. */
  lemma MergedQoe(cached: seq<LogEntry>, latest: seq<QoeSample>, now: int, quality: Quality, r: seq<LogEntry>)
    requires forall e :: e in r ==> e in MergedLog(cached, latest, now, quality)
    ensures forall e :: e in r && e.QoeEntry? ==> e in QoeEntries(latest)
  {
    forall e | e in r && e.QoeEntry? ensures e in QoeEntries(latest) {
      assert e in DropQoe(cached) + QoeEntries(latest) + [QualityEntry(now, quality)];
    }
  }

  /** A suffix of the sorted merge is sorted and takes its entries from the merge. */
  lemma SuffixOfSorted(sorted: seq<LogEntry>, merged: seq<LogEntry>, r: seq<LogEntry>)
    requires SortedBy(sorted, EntryDate) && multiset(sorted) == multiset(merged)
    requires |r| <= |sorted| && r == sorted[|sorted| - |r|..]
    ensures SortedBy(r, EntryDate) && multiset(r) <= multiset(merged)
    ensures forall e :: e in r ==> e in merged
    ensures forall e, f :: e in multiset(merged) - multiset(r) && f in r ==> e.date <= f.date
  {
    SuffixSorted(sorted, EntryDate, |sorted| - |r|);
    DroppedAreOlder(sorted, EntryDate, |sorted| - |r|);
    SuffixMultiset(sorted, |sorted| - |r|);
    SubMultisetMembers(r, merged);
  }

  lemma SubMultisetMembers<T>(r: seq<T>, s: seq<T>)
    requires multiset(r) <= multiset(s)
    ensures forall e :: e in r ==> e in s
  {
    forall e | e in r ensures e in s {
      assert e in multiset(r);
    }
  }

  lemma SuffixSorted<T>(s: seq<T>, key: T -> int, k: nat)
    requires k <= |s| && SortedBy(s, key)
    ensures SortedBy(s[k..], key)
  {
    forall i, j | 0 <= i < j < |s[k..]|
      ensures key(s[k..][i]) <= key(s[k..][j])
    {
      assert s[k..][i] == s[k + i] && s[k..][j] == s[k + j];
    }
  }

  /** In a sorted sequence, whatever a suffix leaves out comes no later than what it keeps. */
  lemma DroppedAreOlder<T>(s: seq<T>, key: T -> int, k: nat)
    requires k <= |s| && SortedBy(s, key)
    ensures forall e, f :: e in multiset(s) - multiset(s[k..]) && f in s[k..] ==> key(e) <= key(f)
  {
    assert s == s[..k] + s[k..];
    assert multiset(s) - multiset(s[k..]) == multiset(s[..k]);
    forall e, f | e in multiset(s) - multiset(s[k..]) && f in s[k..] ensures key(e) <= key(f) {
      assert e in s[..k];
      var i :| 0 <= i < k && s[i] == e;
      var j :| 0 <= j < |s| - k && s[k..][j] == f;
      assert s[k + j] == f;
    }
  }

  lemma SuffixMultiset<T>(s: seq<T>, k: nat)
    requires k <= |s|
    ensures multiset(s[k..]) <= multiset(s)
  {
    assert s == s[..k] + s[k..];
  }

  /**
   * When every other entry is older than the new snapshot, the snapshot is
   * the last entry of the stored log, whatever `max_log` is.
   */
  lemma SnapshotIsNewest(cached: seq<LogEntry>, latest: seq<QoeSample>, now: int, quality: Quality, maxLog: int)
    requires forall e :: e in cached ==> e.date < now
    requires forall s :: s in latest ==> s.date < now
    ensures var r := StoredLog(cached, latest, now, quality, maxLog);
            maxLog >= 0 ==> |r| > 0 && r[|r| - 1] == QualityEntry(now, quality)
  {
    if maxLog >= 0 {
      var merged := MergedLog(cached, latest, now, quality);
      var sorted := SortBy(merged, EntryDate);
      StoredLogEndsSorted(cached, latest, now, quality, maxLog);
      LastOfSortBy(merged, EntryDate, QualityEntry(now, quality));
      OnlySnapshotIsNew(cached, latest, now, quality, sorted[|sorted| - 1]);
    }
  }

  /** With `max_log` not negative the stored log keeps the last entry of the sorted merge. */
  lemma StoredLogEndsSorted(cached: seq<LogEntry>, latest: seq<QoeSample>, now: int, quality: Quality, maxLog: int)
    requires maxLog >= 0
    ensures var r := StoredLog(cached, latest, now, quality, maxLog);
            var sorted := SortBy(MergedLog(cached, latest, now, quality), EntryDate);
            |r| > 0 && |sorted| > 0 && r[|r| - 1] == sorted[|sorted| - 1]
  {
    var sorted := SortBy(MergedLog(cached, latest, now, quality), EntryDate);
    JsSliceLast(sorted, -maxLog);
  }

  /** Under the same hypotheses, the snapshot is the only merged entry dated `now` or later. */
  lemma OnlySnapshotIsNew(cached: seq<LogEntry>, latest: seq<QoeSample>, now: int, quality: Quality, e: LogEntry)
    requires forall e :: e in cached ==> e.date < now
    requires forall s :: s in latest ==> s.date < now
    requires e in MergedLog(cached, latest, now, quality) && now <= e.date
    ensures e == QualityEntry(now, quality)
  {
  }

  /** The record `_store_session` saves for the main video. */
  function StoredRecord(userAgent: string, location: string, info: VideoInfo, quality: Quality,
                        cached: seq<LogEntry>, latest: seq<QoeSample>, now: int, maxLog: int): (r: Record)
    ensures r.endTime == -1 && r.userAgent == userAgent && r.location == location
    ensures r.log == StoredLog(cached, latest, now, quality, maxLog)
    ensures maxLog > 0 ==> |r.log| <= maxLog
  {
    Record(userAgent, location, info.mediaSize, info.domainName, info.startTime, -1,
           info.thumbnail, info.title, StoredLog(cached, latest, now, quality, maxLog))
  }

  // ---------------------------------------------------------------------
  // Payload counters
  // ---------------------------------------------------------------------

  /** One `_to_json` call: the start time takes the previous end time, the sequence grows by one. */
  function Handoff(c: Counters, now: int): Counters {
    Counters(c.endTime, now, c.sequence + 1)
  }

  /** Successive `_to_json` calls at the clock readings `nows`. */
  function HandoffAll(c: Counters, nows: seq<int>): Counters
    decreases |nows|
  {
    if nows == [] then c else HandoffAll(Handoff(c, nows[0]), nows[1..])
  }

  /**
   * After `n` calls the sequence has grown by exactly `n`, so successive
   * payloads of a new session carry 1, 2, 3, ...; each payload's start time
   * is the previous payload's end time.
   */
  lemma {:induction false} HandoffAllCounts(c: Counters, nows: seq<int>)
    decreases |nows|
    ensures HandoffAll(c, nows).sequence == c.sequence + |nows|
    ensures |nows| >= 1 ==> HandoffAll(c, nows).endTime == nows[|nows| - 1]
    ensures |nows| == 1 ==> HandoffAll(c, nows).startTime == c.endTime
    ensures |nows| >= 2 ==> HandoffAll(c, nows).startTime == nows[|nows| - 2]
  {
    if nows != [] {
      HandoffAllCounts(Handoff(c, nows[0]), nows[1..]);
    }
  }

  /** One more `_to_json` call after a run of them. */
  lemma {:induction false} HandoffAllSnoc(c: Counters, nows: seq<int>, now: int)
    decreases |nows|
    ensures HandoffAll(c, nows + [now]) == Handoff(HandoffAll(c, nows), now)
  {
    if nows != [] {
      assert (nows + [now])[1..] == nows[1..] + [now];
      HandoffAllSnoc(Handoff(c, nows[0]), nows[1..], now);
    } else {
      assert [now][1..] == [];
    }
  }

  // ---------------------------------------------------------------------
  // Tick cadence
  // ---------------------------------------------------------------------

  /** The tick after which the latest-QoE phase starts asking for a score. */
  function QoeRequestStart(cfg: Config): int {
    cfg.transInterval * cfg.sendDataCountForQoe - cfg.prevCountForQoe
  }

  /** The tick at which the latest-QoE phase gives up. */
  function QoeRequestTimeout(cfg: Config): int {
    QoeRequestStart(cfg) + cfg.maxCountForQoe
  }

  /** `i % trans_interval === 0`; a zero interval gives `NaN`, never 0. */
  predicate DataDue(cfg: Config, i: nat) {
    cfg.transInterval != 0 && i % cfg.transInterval == 0
  }

  /** `i > qoe_request_start`, the latest-QoE phase's request test. */
  predicate LatestRequestDue(cfg: Config, i: nat) {
    i > QoeRequestStart(cfg)
  }

  /** `i % (trans_interval * latest_qoe_update) === 0`, the steady phase's request test. */
  predicate SteadyRequestDue(cfg: Config, i: nat) {
    var period := cfg.transInterval * cfg.latestQoeUpdate;
    period != 0 && i % period == 0
  }

  /** What tick `i` does in either phase, given what the world supplies. */
  function ExpectedTick(cfg: Config, steady: bool, i: nat, o: Observation): (t: TickRecord)
    ensures t.stored == o.available
    ensures t.data || t.request ==> o.available
    ensures cfg.transInterval == 0 ==> !t.data
    ensures steady && t.request ==> t.data
    ensures !steady ==> (t.request <==> o.available && i > QoeRequestStart(cfg))
    ensures t.qoe.Some? ==> t.request
  {
    SteadyRequestIsSendTick(cfg, i);
    var data := o.available && DataDue(cfg, i);
    var request := o.available && (if steady then SteadyRequestDue(cfg, i) else LatestRequestDue(cfg, i));
    TickRecord(data, request, o.available, if request then RequestQoe(o.reply) else None)
  }

  /** In the steady phase every tick that asks for a score also sends a payload. */
  lemma SteadyRequestIsSendTick(cfg: Config, i: nat)
    ensures SteadyRequestDue(cfg, i) ==> DataDue(cfg, i)
  {
    if !SteadyRequestDue(cfg, i) {
      return;
    }
    var t, u := cfg.transInterval, cfg.latestQoeUpdate;
    var q := i / (t * u);
    assert i == (t * u) * q;
    assert (t * u) * q == t * (u * q);
    ModUnique(i, t, u * q, 0);
  }

  /**
   * With an interval of `t` ticks (of either sign: JavaScript's remainder of
   * a non-negative tick by `t` is the one by `|t|`), exactly the multiples of
   * `|t|` send.
   */
  lemma DataDueOnMultiples(cfg: Config, q: nat, r: nat)
    requires r < Abs(cfg.transInterval)
    ensures DataDue(cfg, Abs(cfg.transInterval) * q + r) <==> r == 0
  {
    var t := cfg.transInterval;
    var i := Abs(t) * q + r;
    if t > 0 {
      ModUnique(i, t, q, r);
    } else {
      var m: int := q;
      assert i == t * (-m) + r;
      ModUnique(i, t, -m, r);
    }
  }

  /** The steady phase asks for a score every `trans_interval * latest_qoe_update` ticks. */
  lemma SteadyRequestPeriodic(cfg: Config, i: nat)
    requires cfg.transInterval * cfg.latestQoeUpdate > 0
    ensures SteadyRequestDue(cfg, i + cfg.transInterval * cfg.latestQoeUpdate) <==> SteadyRequestDue(cfg, i)
  {
    var t := cfg.transInterval * cfg.latestQoeUpdate;
    var q, r := i / t, i % t;
    assert i == t * q + r;
    assert i + t == t * (q + 1) + r;
    ModUnique(i + t, t, q + 1, r);
  }

  /** Sends recur every `trans_interval` ticks. */
  lemma SendCadencePeriodic(cfg: Config, i: nat)
    requires cfg.transInterval > 0
    ensures DataDue(cfg, i + cfg.transInterval) <==> DataDue(cfg, i)
  {
    var t := cfg.transInterval;
    var q, r := i / t, i % t;
    assert i == t * q + r;
    assert i + t == t * (q + 1) + r;
    ModUnique(i + t, t, q + 1, r);
  }

  function Abs(x: int): nat {
    if x < 0 then -x else x
  }

  /** Quotient and remainder are the only ones with a remainder in `[0, |t|)`. */
  lemma ModUnique(a: int, t: int, q: int, r: int)
    requires t != 0 && a == t * q + r && 0 <= r < Abs(t)
    ensures a % t == r && a / t == q
  {
    var q', r' := a / t, a % t;
    assert a == t * q' + r';
    assert t * (q - q') == r' - r;
    if q != q' {
      MulAtLeast(t, q - q');
      assert false;
    }
  }

  lemma MulAtLeast(t: int, d: int)
    requires t != 0 && d != 0
    ensures Abs(t * d) >= Abs(t)
  {
    var at, ad := Abs(t), Abs(d);
    MulGrows(at, ad);
    if t >= 0 && d >= 0 {
      assert t * d == at * ad;
    } else if t >= 0 {
      assert -(t * d) == at * ad;
    } else if d >= 0 {
      assert -(t * d) == at * ad;
    } else {
      assert t * d == at * ad;
    }
  }

  lemma {:induction false} MulGrows(t: nat, d: nat)
    requires d >= 1
    ensures t * d >= t
  {
    if d > 1 {
      MulGrows(t, d - 1);
      assert t * d == t * (d - 1) + t;
    }
  }

  /** How many of the ticks `0 .. n-1` the latest-QoE phase would ask for a score on. */
  function LatestRequestTicks(cfg: Config, n: nat): nat {
    if n == 0 then 0 else LatestRequestTicks(cfg, n - 1) + (if LatestRequestDue(cfg, n - 1) then 1 else 0)
  }

  lemma {:induction false} LatestRequestTicksCount(cfg: Config, n: nat)
    ensures var from := if QoeRequestStart(cfg) + 1 < 0 then 0 else QoeRequestStart(cfg) + 1;
            LatestRequestTicks(cfg, n) == if n <= from then 0 else n - from
  {
    if n > 0 {
      LatestRequestTicksCount(cfg, n - 1);
    }
  }

  /**
   * The latest-QoE phase, which ends at the latest at `qoe_request_timeout`,
   * asks for a score on at most `max_count_for_qoe - 1` ticks.
   */
  lemma LatestPhaseRequestBudget(cfg: Config)
    requires cfg.maxCountForQoe >= 1
    ensures var timeout := QoeRequestTimeout(cfg);
            LatestRequestTicks(cfg, if timeout < 0 then 0 else timeout) <= cfg.maxCountForQoe - 1
  {
    var timeout := QoeRequestTimeout(cfg);
    LatestRequestTicksCount(cfg, if timeout < 0 then 0 else timeout);
  }

  /** The number of ticks of `trace` that sent a payload. */
  function CountSends(trace: seq<TickRecord>): nat {
    if trace == [] then 0
    else CountSends(trace[..|trace| - 1]) + (if trace[|trace| - 1].data then 1 else 0)
  }

  /** The number of ticks of `trace` that asked the QoE service for a score. */
  function CountRequests(trace: seq<TickRecord>): nat {
    if trace == [] then 0
    else CountRequests(trace[..|trace| - 1]) + (if trace[|trace| - 1].request then 1 else 0)
  }

  /** A latest-phase trace asks for a score on no more ticks than `LatestRequestTicks` counts. */
  lemma {:induction false} LatestTraceRequests(cfg: Config, trace: seq<TickRecord>, obs: seq<Observation>)
    requires |trace| <= |obs|
    requires forall t :: 0 <= t < |trace| ==> trace[t] == ExpectedTick(cfg, false, t, obs[t])
    ensures CountRequests(trace) <= LatestRequestTicks(cfg, |trace|)
  {
    if trace != [] {
      var n := |trace| - 1;
      LatestTraceRequests(cfg, trace[..n], obs);
      assert trace[n] == ExpectedTick(cfg, false, n, obs[n]);
    }
  }

  /**
   * However the world answers, the first loop of `_play_started`, which runs
   * at most `qoe_request_timeout` ticks, asks for at most
   * `max_count_for_qoe - 1` scores.
   */
  lemma LatestPhaseRequests(cfg: Config, trace: seq<TickRecord>, obs: seq<Observation>)
    requires cfg.maxCountForQoe >= 1
    requires |trace| <= |obs|
    requires |trace| <= (if QoeRequestTimeout(cfg) < 0 then 0 else QoeRequestTimeout(cfg))
    requires forall t :: 0 <= t < |trace| ==> trace[t] == ExpectedTick(cfg, false, t, obs[t])
    ensures CountRequests(trace) <= cfg.maxCountForQoe - 1
  {
    LatestTraceRequests(cfg, trace, obs);
    LatestRequestTicksCount(cfg, |trace|);
    LatestPhaseRequestBudget(cfg);
    var timeout := QoeRequestTimeout(cfg);
    LatestRequestTicksCount(cfg, if timeout < 0 then 0 else timeout);
  }

  /** The scores appended to the main video's buffer over `trace`. */
  function Appended(trace: seq<TickRecord>, obs: seq<Observation>): seq<QoeSample>
    requires |trace| <= |obs|
  {
    if trace == [] then []
    else
      var n := |trace| - 1;
      Appended(trace[..n], obs) +
        (if Truthy(trace[n].qoe) then [QoeSample(obs[n].receivedAt, trace[n].qoe.value)] else [])
  }

  /** The clock readings of the ticks of `trace` that built a payload, in order. */
  function SendClocks(trace: seq<TickRecord>, obs: seq<Observation>): seq<int>
    requires |trace| <= |obs|
  {
    if trace == [] then []
    else
      var n := |trace| - 1;
      SendClocks(trace[..n], obs) + (if trace[n].data then [obs[n].perfNow] else [])
  }

  /** What every save of one run of `_play_started` shares: the key, the user agent and the log bound. */
  datatype SaveSite = SaveSite(key: (string, string), userAgent: string, maxLog: int)

  /**
   * The store after `trace`, from `records`: each tick that stored writes
   * its record under the main video's key; the score buffer starts as `q0`.
   */
  function StoreAfter(site: SaveSite, records: map<(string, string), Record>, q0: seq<QoeSample>,
                      trace: seq<TickRecord>, obs: seq<Observation>): map<(string, string), Record>
    requires |trace| <= |obs|
    decreases |trace|, 0
  {
    if trace == [] then records
    else
      var n := |trace| - 1;
      var prev := StoreAfter(site, records, q0, trace[..n], obs);
      if trace[n].stored then prev[site.key := SavedAt(site, records, q0, trace[..n], obs)] else prev
  }

  /**
   * The record `_store_session` saves at the tick after `prefix`: the
   * element's details, and the log of `SavedLog`.
   */
  function SavedAt(site: SaveSite, records: map<(string, string), Record>, q0: seq<QoeSample>,
                   prefix: seq<TickRecord>, obs: seq<Observation>): Record
    requires |prefix| < |obs|
    decreases |prefix|, 2
  {
    var info := obs[|prefix|].info;
    Record(site.userAgent, obs[|prefix|].location, info.mediaSize, info.domainName, info.startTime, -1,
           info.thumbnail, info.title, SavedLog(site, records, q0, prefix, obs))
  }

  /**
   * The log saved at the tick after `prefix`: built from the log the store
   * holds after `prefix` and from the score buffer then.
   */
  function SavedLog(site: SaveSite, records: map<(string, string), Record>, q0: seq<QoeSample>,
                    prefix: seq<TickRecord>, obs: seq<Observation>): seq<LogEntry>
    requires |prefix| < |obs|
    decreases |prefix|, 1
  {
    StoredLog(LogIn(StoreAfter(site, records, q0, prefix, obs), site.key), q0 + Appended(prefix, obs),
              obs[|prefix|].now, obs[|prefix|].quality, site.maxLog)
  }

  /** The record saved at the tick after `prefix` is the one `_store_session` builds from the state then. */
  lemma SavedAtIsStored(site: SaveSite, records: map<(string, string), Record>, q0: seq<QoeSample>,
                        prefix: seq<TickRecord>, obs: seq<Observation>)
    requires |prefix| < |obs|
    ensures SavedAt(site, records, q0, prefix, obs) ==
            StoredRecord(site.userAgent, obs[|prefix|].location, obs[|prefix|].info, obs[|prefix|].quality,
                         LogIn(StoreAfter(site, records, q0, prefix, obs), site.key), q0 + Appended(prefix, obs),
                         obs[|prefix|].now, site.maxLog)
  {
    assert SavedLog(site, records, q0, prefix, obs) ==
           StoredLog(LogIn(StoreAfter(site, records, q0, prefix, obs), site.key), q0 + Appended(prefix, obs),
                     obs[|prefix|].now, obs[|prefix|].quality, site.maxLog);
  }

  /** A run touches no key but the main video's. */
  lemma {:induction false} StoreAfterOtherKeys(site: SaveSite, records: map<(string, string), Record>, q0: seq<QoeSample>,
                                               trace: seq<TickRecord>, obs: seq<Observation>, k: (string, string))
    requires |trace| <= |obs| && k != site.key
    ensures var after := StoreAfter(site, records, q0, trace, obs);
            (k in after <==> k in records) && (k in records ==> after[k] == records[k])
  {
    if trace != [] {
      StoreAfterOtherKeys(site, records, q0, trace[..|trace| - 1], obs, k);
    }
  }

  /** A run in which no tick stored leaves the store as it was. */
  lemma {:induction false} StoreAfterNoSave(site: SaveSite, records: map<(string, string), Record>, q0: seq<QoeSample>,
                                            trace: seq<TickRecord>, obs: seq<Observation>)
    requires |trace| <= |obs|
    requires forall t :: 0 <= t < |trace| ==> !trace[t].stored
    ensures StoreAfter(site, records, q0, trace, obs) == records
  {
    if trace != [] {
      StoreAfterNoSave(site, records, q0, trace[..|trace| - 1], obs);
    }
  }

  /**
   * After a run, the main video's key holds the record saved by the last
   * tick that stored, `n`, built from the store and buffer just before it
   * and from the video's details read at that tick; its log keeps the
   * `max_log` bound.
   */
  lemma {:induction false} StoreAfterLastSave(site: SaveSite, records: map<(string, string), Record>, q0: seq<QoeSample>,
                                              trace: seq<TickRecord>, obs: seq<Observation>, n: nat)
    requires |trace| <= |obs| && n < |trace| && trace[n].stored
    requires forall t :: n < t < |trace| ==> !trace[t].stored
    ensures var after := StoreAfter(site, records, q0, trace, obs);
            site.key in after && after[site.key] == SavedAt(site, records, q0, trace[..n], obs) &&
            (site.maxLog > 0 ==> |after[site.key].log| <= site.maxLog)
    ensures var r := StoreAfter(site, records, q0, trace, obs)[site.key];
            var info := obs[n].info;
            r.location == obs[n].location && r.mediaSize == info.mediaSize && r.domainName == info.domainName &&
            r.startTime == info.startTime && r.thumbnail == info.thumbnail && r.title == info.title
  {
    if n < |trace| - 1 {
      var m := |trace| - 1;
      assert trace[..m][..n] == trace[..n];
      StoreAfterLastSave(site, records, q0, trace[..m], obs, n);
    } else {
      assert trace[..n] == trace[..|trace| - 1];
    }
  }

  /**
   * A run whose ticks store exactly when the video is available: no key but
   * the main video's changes, and nothing changes when it never was.
   */
  lemma StoreOnlyMain(site: SaveSite, records: map<(string, string), Record>, q0: seq<QoeSample>,
                      trace: seq<TickRecord>, obs: seq<Observation>)
    requires |trace| <= |obs|
    requires forall t :: 0 <= t < |trace| ==> trace[t].stored == obs[t].available
    ensures var after := StoreAfter(site, records, q0, trace, obs);
            forall k :: k != site.key ==> (k in after <==> k in records) && (k in records ==> after[k] == records[k])
    ensures (forall t :: 0 <= t < |trace| ==> !obs[t].available) ==> StoreAfter(site, records, q0, trace, obs) == records
  {
    forall k | k != site.key
      ensures var after := StoreAfter(site, records, q0, trace, obs);
              (k in after <==> k in records) && (k in records ==> after[k] == records[k])
    {
      StoreAfterOtherKeys(site, records, q0, trace, obs, k);
    }
    if forall t :: 0 <= t < |trace| ==> !obs[t].available {
      StoreAfterNoSave(site, records, q0, trace, obs);
    }
  }

  /** One more tick: the store after it is the store after the longer trace. */
  lemma StoreStep(site: SaveSite, records: map<(string, string), Record>, q0: seq<QoeSample>,
                  trace: seq<TickRecord>, tick: TickRecord, obs: seq<Observation>,
                  before: map<(string, string), Record>, after: map<(string, string), Record>)
    requires |trace| < |obs|
    requires before == StoreAfter(site, records, q0, trace, obs)
    requires after == if tick.stored then
                        before[site.key := StoredRecord(site.userAgent, obs[|trace|].location, obs[|trace|].info, obs[|trace|].quality,
                                                        LogIn(before, site.key), q0 + Appended(trace, obs),
                                                        obs[|trace|].now, site.maxLog)]
                      else before
    ensures after == StoreAfter(site, records, q0, trace + [tick], obs)
  {
    assert (trace + [tick])[..|trace|] == trace;
    SavedAtIsStored(site, records, q0, trace, obs);
  }

  lemma {:induction false} SendClocksCount(trace: seq<TickRecord>, obs: seq<Observation>)
    requires |trace| <= |obs|
    ensures |SendClocks(trace, obs)| == CountSends(trace)
  {
    if trace != [] {
      SendClocksCount(trace[..|trace| - 1], obs);
    }
  }

  /** Over a run, the sequence grows by the number of send ticks. */
  lemma SequenceOfClocks(c: Counters, trace: seq<TickRecord>, obs: seq<Observation>)
    requires |trace| <= |obs|
    ensures HandoffAll(c, SendClocks(trace, obs)).sequence == c.sequence + CountSends(trace)
  {
    SendClocksCount(trace, obs);
    HandoffAllCounts(c, SendClocks(trace, obs));
  }

  // ---------------------------------------------------------------------
  // The session
  // ---------------------------------------------------------------------

  class SessionData {
    const sessionId: string
    const version: int
    const userAgent: string
    const appVersion: string
    var startTime: int
    var endTime: int
    var sequence: int
    /** The tracked videos, in the order they were found. */
    var video: seq<VideoData>
    var latestQoeUpdateCount: int

    ghost predicate Valid()
      reads this
    {
      DistinctElements(video)
    }

    /** `new SessionData(id, version)`, with the user agent string read from the host. */
    constructor (id: string, version: int, userAgent: string)
      ensures Valid()
      ensures sessionId == id && this.version == version && this.userAgent == userAgent
      ensures appVersion == AppVersion(userAgent)
      ensures startTime == 0 && endTime == 0 && sequence == 0
      ensures video == [] && latestQoeUpdateCount == 0
    {
      sessionId := id;
      this.version := version;
      this.userAgent := userAgent;
      appVersion := AppVersion(userAgent);
      startTime, endTime, sequence := 0, 0, 0;
      video := [];
      latestQoeUpdateCount := 0;
    }

    function Counts(): Counters
      reads this
    {
      Counters(startTime, endTime, sequence)
    }

    /** `get_main_video`: the first tracker whose video is the main one, if any. */
    function MainVideo(): (r: Option<VideoData>)
      reads this, set v | v in video :: v.elm
      ensures r.Some? ==> exists k :: 0 <= k < |video| && video[k] == r.value && r.value.IsMainVideo() &&
                                      forall j :: 0 <= j < k ==> !video[j].IsMainVideo()
      ensures r.None? <==> forall j :: 0 <= j < |video| ==> !video[j].IsMainVideo()
    {
      match FindMain(video)
      case None => None
      case Some(k) => Some(video[k])
    }

    /** `get_video_availability`: false without a main video, else whether it is available. */
    function VideoAvailability(): (r: bool)
      reads this, set v | v in video :: v.elm
      ensures r <==> exists k :: 0 <= k < |video| && video[k].IsMainVideo() &&
                                 (forall j :: 0 <= j < k ==> !video[j].IsMainVideo()) &&
                                 video[k].IsAvailable()
    {
      var m := MainVideo();
      if m.None? then false else m.value.IsAvailable()
    }

    /**
     * `set_video_elms(elms)`: a tracker for every listed element that has
     * none yet and can be wrapped (its id is `ids` at the element's
     * position), then every tracker whose element is no longer listed or no
     * longer stays is cleared and spliced out.
     */
    method SetVideoElms(elms: seq<Element>, ids: seq<string>) returns (ghost added: seq<VideoData>)
      requires Valid() && |ids| == |elms|
      modifies this`video, video
      ensures Valid()
      ensures var ps := NewPositions(old(video), elms, |elms|);
              |added| == |ps| &&
              forall k :: 0 <= k < |added| ==>
                added[k].elm == elms[ps[k]] && added[k].videoId == ids[ps[k]] &&
                fresh(added[k]) && added[k].latestQoe == []
      ensures video == Survivors(old(video) + added, elms)
      ensures forall k :: 0 <= k < |video| ==> video[k].elm in elms && video[k].IsStay()
      ensures forall j :: 0 <= j < |elms| && elms[j].trackable && elms[j].attached ==> Tracks(video, elms[j])
      ensures forall v :: v in old(video) ==>
                v.latestQoe == old(v.latestQoe) &&
                v.clearCount == old(v.clearCount) + (if v in video then 0 else 1)
      ensures forall v :: v in added ==> v.clearCount == (if v in video then 0 else 1)
    {
      added := AddTrackers(elms, ids);
      ghost var all := video;
      RemoveLeavers(elms);
      forall j | 0 <= j < |elms| && elms[j].trackable && elms[j].attached
        ensures Tracks(video, elms[j])
      {
        var m :| 0 <= m < |all| && all[m].elm == elms[j];
        assert Stays(all[m], elms);
        assert all[m] in video;
        var n :| 0 <= n < |video| && video[n] == all[m];
      }
    }

    /** The adding half of `set_video_elms`. */
    method AddTrackers(elms: seq<Element>, ids: seq<string>) returns (ghost added: seq<VideoData>)
      requires Valid() && |ids| == |elms|
      modifies this`video
      ensures Valid()
      ensures video == old(video) + added
      ensures var ps := NewPositions(old(video), elms, |elms|);
              |added| == |ps| &&
              forall k :: 0 <= k < |added| ==>
                added[k].elm == elms[ps[k]] && added[k].videoId == ids[ps[k]] &&
                fresh(added[k]) && added[k].latestQoe == [] && added[k].clearCount == 0
      ensures forall j :: 0 <= j < |elms| && elms[j].trackable ==> Tracks(video, elms[j])
    {
      ghost var before := video;
      added := [];
      var i := 0;
      while i < |elms|
        invariant 0 <= i <= |elms|
        invariant Adding(before, added, video, elms, ids, i)
        invariant forall k :: 0 <= k < |added| ==>
                    fresh(added[k]) && added[k].latestQoe == [] && added[k].clearCount == 0
      {
        var elm := elms[i];
        if !Tracks(video, elm) && elm.trackable {
          var tracker := new VideoData(elm, ids[i]);
          AddingExtend(before, added, elms, ids, i, tracker);
          video := video + [tracker];
          added := added + [tracker];
        } else {
          AddingSkip(before, added, elms, ids, i);
        }
        i := i + 1;
      }
    }

    /**
     * The adding loop after the first `i` elements: `video` is `before`
     * followed by one tracker per newcomer so far, and tracks every
     * trackable element so far.
     */
    static ghost predicate Adding(before: seq<VideoData>, added: seq<VideoData>, video: seq<VideoData>,
                                  elms: seq<Element>, ids: seq<string>, i: nat) {
      i <= |elms| && video == before + added && DistinctElements(video) &&
      WrapsAt(added, NewPositions(before, elms, i), elms, ids) &&
      forall j :: 0 <= j < i && elms[j].trackable ==> Tracks(video, elms[j])
    }

    static lemma AddingExtend(before: seq<VideoData>, added: seq<VideoData>, elms: seq<Element>, ids: seq<string>,
                              i: nat, t: VideoData)
      requires i < |elms| && i < |ids| && Adding(before, added, before + added, elms, ids, i)
      requires !Tracks(before + added, elms[i]) && elms[i].trackable
      requires t.elm == elms[i] && t.videoId == ids[i]
      ensures Adding(before, added + [t], before + added + [t], elms, ids, i + 1)
    {
      AddingStep(before, added, elms, i);
      TracksExtend(before + added, t, elms, i);
      WrapsAtExtend(added, NewPositions(before, elms, i), elms, ids, t, i);
      assert before + (added + [t]) == before + added + [t];
    }

    static lemma AddingSkip(before: seq<VideoData>, added: seq<VideoData>, elms: seq<Element>, ids: seq<string>, i: nat)
      requires i < |elms| && Adding(before, added, before + added, elms, ids, i)
      requires Tracks(before + added, elms[i]) || !elms[i].trackable
      ensures Adding(before, added, before + added, elms, ids, i + 1)
    {
      AddingStep(before, added, elms, i);
    }

    /** Each added tracker wraps the element, and carries the id, at its listed position. */
    static ghost predicate WrapsAt(added: seq<VideoData>, ps: seq<nat>, elms: seq<Element>, ids: seq<string>) {
      |added| == |ps| &&
      forall k :: 0 <= k < |added| ==>
        ps[k] < |elms| && ps[k] < |ids| && added[k].elm == elms[ps[k]] && added[k].videoId == ids[ps[k]]
    }

    static lemma WrapsAtExtend(added: seq<VideoData>, ps: seq<nat>, elms: seq<Element>, ids: seq<string>,
                               t: VideoData, i: nat)
      requires WrapsAt(added, ps, elms, ids)
      requires i < |elms| && i < |ids| && t.elm == elms[i] && t.videoId == ids[i]
      ensures WrapsAt(added + [t], ps + [i], elms, ids)
    {
    }

    /** The removing half of `set_video_elms`: clear and splice out every leaver, in order. */
    method RemoveLeavers(elms: seq<Element>)
      requires Valid()
      modifies this`video, video
      ensures Valid()
      ensures video == Survivors(old(video), elms)
      ensures forall v :: v in old(video) ==>
                v.latestQoe == old(v.latestQoe) &&
                v.clearCount == old(v.clearCount) + (if v in video then 0 else 1)
    {
      ghost var all := video;
      var removing := Leavers(video, elms);
      ghost var leaving := set v | v in removing;
      LeaversGone(all, elms, removing, leaving);
      WithoutLeavers(all, elms, leaving);
      SurvivorsDistinct(all, elms);
      DistinctTrackers(all);
      DistinctTrackers(removing);
      ghost var gone := DropAll(removing);
      assert gone == leaving;
      forall v | v in all
        ensures v.latestQoe == old(v.latestQoe)
        ensures v.clearCount == old(v.clearCount) + (if v in video then 0 else 1)
      {
        WithoutMembers(all, gone, v);
        if v in gone {
          var j :| 0 <= j < |removing| && removing[j] == v;
        }
      }
    }

    /** `removing.forEach(...)`: clears and splices out each tracker of `removing`, in order. */
    method DropAll(removing: seq<VideoData>) returns (ghost gone: set<VideoData>)
      requires Distinct(video) && Distinct(removing)
      requires forall j :: 0 <= j < |removing| ==> removing[j] in video
      modifies this`video, removing
      ensures forall v :: v in gone <==> v in removing
      ensures video == Without(old(video), gone)
      ensures forall j :: 0 <= j < |removing| ==>
                removing[j].latestQoe == old(removing[j].latestQoe) &&
                removing[j].clearCount == old(removing[j].clearCount) + 1
    {
      ghost var all := video;
      gone := {};
      WithoutNothing(all);
      var k := 0;
      while k < |removing|
        invariant 0 <= k <= |removing|
        invariant forall j :: 0 <= j < |removing| ==> (removing[j] in gone <==> j < k)
        invariant forall v :: v in gone ==> v in removing
        invariant video == Without(all, gone)
        invariant forall j :: 0 <= j < |removing| ==>
                    removing[j].latestQoe == old(removing[j].latestQoe) &&
                    removing[j].clearCount == old(removing[j].clearCount) + (if j < k then 1 else 0)
      {
        var e := removing[k];
        SpliceOne(all, gone, e);
        Drop(e);
        GoneStep(removing, gone, k);
        gone := gone + {e};
        k := k + 1;
      }
    }

    /** `removing.clear(); this.video.splice(this.video.indexOf(removing), 1)`. */
    method Drop(e: VideoData)
      requires e in video
      modifies this`video, e`clearCount
      ensures video == Spliced(old(video), e)
      ensures e.clearCount == old(e.clearCount) + 1
    {
      e.Clear();
      var idx := IndexOf(video, e);
      video := video[..idx] + video[idx + 1..];
    }

    /** The leavers are exactly the trackers that do not stay. */
    static lemma LeaversGone(all: seq<VideoData>, elms: seq<Element>, removing: seq<VideoData>, leaving: set<VideoData>)
      requires removing == Leavers(all, elms)
      requires forall v :: v in leaving <==> v in removing
      ensures forall v :: v in all ==> (v in leaving <==> !Stays(v, elms))
    {
      forall v | v in all
        ensures v in leaving <==> !Stays(v, elms)
      {
        if v in leaving {
          var j :| 0 <= j < |removing| && removing[j] == v;
        }
        if !Stays(v, elms) {
          var m :| 0 <= m < |all| && all[m] == v;
        }
      }
    }

    /** Removing `removing[k]` extends the removed prefix by one. */
    static lemma GoneStep(removing: seq<VideoData>, gone: set<VideoData>, k: nat)
      requires Distinct(removing) && k < |removing|
      requires forall j :: 0 <= j < |removing| ==> (removing[j] in gone <==> j < k)
      ensures forall j :: 0 <= j < |removing| ==> (removing[j] in gone + {removing[k]} <==> j < k + 1)
    {
    }

    /**
     * Appending a tracker for an untracked element keeps the elements
     * distinct and every element tracked, and tracks the new one.
     */
    static lemma TracksExtend(vs: seq<VideoData>, x: VideoData, elms: seq<Element>, i: nat)
      requires i < |elms| && x.elm == elms[i]
      requires DistinctElements(vs) && !Tracks(vs, x.elm)
      requires forall j :: 0 <= j < i && elms[j].trackable ==> Tracks(vs, elms[j])
      ensures DistinctElements(vs + [x])
      ensures forall j :: 0 <= j <= i && elms[j].trackable ==> Tracks(vs + [x], elms[j])
    {
      var w := vs + [x];
      assert w[|vs|] == x;
      forall j | 0 <= j <= i && elms[j].trackable ensures Tracks(w, elms[j]) {
        if j < i {
          var k :| 0 <= k < |vs| && vs[k].elm == elms[j];
          assert w[k] == vs[k];
        }
      }
      forall a, b | 0 <= a < b < |w| ensures w[a].elm != w[b].elm {
        assert w[a] == vs[a];
        if b < |vs| {
          assert w[b] == vs[b];
        }
      }
    }

    /** Survivors of trackers with distinct elements still have distinct elements. */
    static lemma SurvivorsDistinct(vs: seq<VideoData>, elms: seq<Element>)
      requires DistinctElements(vs)
      ensures DistinctElements(Survivors(vs, elms))
      decreases |vs|
    {
      if vs != [] {
        SurvivorsDistinct(vs[1..], elms);
        var rest := Survivors(vs[1..], elms);
        forall k | 0 <= k < |rest| ensures rest[k].elm != vs[0].elm {
          assert rest[k] in vs[1..];
        }
      }
    }

    /** What the adding loop learns at position `i`: an element gets a new tracker exactly when it is a newcomer. */
    static lemma AddingStep(before: seq<VideoData>, added: seq<VideoData>, elms: seq<Element>, i: nat)
      requires i < |elms|
      requires var ps := NewPositions(before, elms, i);
               |added| == |ps| && forall k :: 0 <= k < |added| ==> added[k].elm == elms[ps[k]]
      requires forall j :: 0 <= j < i && elms[j].trackable ==> Tracks(before + added, elms[j])
      ensures (!Tracks(before + added, elms[i]) && elms[i].trackable) <==> IsNewcomer(before, elms, i)
      ensures NewPositions(before, elms, i + 1) ==
                NewPositions(before, elms, i) + (if IsNewcomer(before, elms, i) then [i] else [])
    {
      if Tracks(before + added, elms[i]) {
        AlreadyTracked(before, added, elms, i);
      } else if elms[i].trackable {
        NotYetTracked(before, added, elms, i);
      }
    }

    static lemma AlreadyTracked(before: seq<VideoData>, added: seq<VideoData>, elms: seq<Element>, i: nat)
      requires i < |elms|
      requires var ps := NewPositions(before, elms, i);
               |added| == |ps| && forall k :: 0 <= k < |added| ==> added[k].elm == elms[ps[k]]
      requires Tracks(before + added, elms[i])
      ensures !IsNewcomer(before, elms, i)
    {
      var e := elms[i];
      var ps := NewPositions(before, elms, i);
      var m :| 0 <= m < |before + added| && (before + added)[m].elm == e;
      if m >= |before| {
        var k := m - |before|;
        assert added[k] == (before + added)[m];
        assert ps[k] < i && elms[..i][ps[k]] == e;
      } else {
        assert before[m] == (before + added)[m];
      }
    }

    static lemma NotYetTracked(before: seq<VideoData>, added: seq<VideoData>, elms: seq<Element>, i: nat)
      requires i < |elms|
      requires forall j :: 0 <= j < i && elms[j].trackable ==> Tracks(before + added, elms[j])
      requires !Tracks(before + added, elms[i]) && elms[i].trackable
      ensures IsNewcomer(before, elms, i)
    {
      var e := elms[i];
      forall m | 0 <= m < |before| ensures before[m].elm != e {
        assert before[m] == (before + added)[m];
      }
    }

    /**
     * `_to_json(video)`: hands the end time over to the start time, takes a
     * new end time, numbers the payload, and builds it.
     */
    method ToJson(v: VideoData, o: Observation) returns (p: Payload)
      modifies this`startTime, this`endTime, this`sequence
      ensures Counts() == Handoff(old(Counts()), o.perfNow)
      ensures p == Payload(version, o.isoDate, startTime, endTime, sessionId, o.location,
                           userAgent, appVersion, sequence, [v.Snapshot(o)], [])
    {
      startTime := endTime;
      endTime := o.perfNow;
      sequence := sequence + 1;
      p := Payload(version, o.isoDate, startTime, endTime, sessionId, o.location,
                   userAgent, appVersion, sequence, [v.Snapshot(o)], []);
    }

    /**
     * `_transaction`: when the main video is unavailable nothing happens but
     * the wait. Otherwise a payload is built and sent when `data` holds, the
     * QoE service is asked when `request` holds, and the record is stored
     * every time; the stored log holds the scores received before this tick,
     * and a truthy score received now is appended to the video's buffer.
     */
    method Transaction(main: VideoData, data: bool, request: bool, o: Observation, store: Storage, maxLog: int)
      returns (qoe: Option<real>, sent: Option<Payload>, saved: Option<Record>)
      modifies this`startTime, this`endTime, this`sequence, main`latestQoe, store
      ensures !o.available ==>
                qoe.None? && sent.None? && saved.None? && Counts() == old(Counts()) &&
                main.latestQoe == old(main.latestQoe) && store.records == old(store.records)
      ensures o.available ==>
                (sent.Some? <==> data) &&
                (sent.Some? ==> sent.value == Payload(version, o.isoDate, startTime, endTime, sessionId, o.location,
                                  userAgent, appVersion, sequence, [main.Snapshot(o)], [])) &&
                Counts() == (if data then Handoff(old(Counts()), o.perfNow) else old(Counts())) &&
                saved == Some(StoredRecord(userAgent, o.location, o.info, o.quality,
                                           old(store.CachedLog((sessionId, main.videoId))),
                                           old(main.latestQoe), o.now, maxLog)) &&
                store.records == old(store.records)[(sessionId, main.videoId) := saved.value] &&
                qoe == (if request then RequestQoe(o.reply) else None) &&
                main.latestQoe == old(main.latestQoe) +
                                  (if Truthy(qoe) then [QoeSample(o.receivedAt, qoe.value)] else [])
    {
      qoe, sent, saved := None, None, None;
      if o.available {
        var record;
        sent, record := SendAndStore(main, data, o, store, maxLog);
        saved := Some(record);
        qoe := AskQoe(main, request, o);
      }
    }

    /** The sending and storing part of `_transaction` on an available video. */
    method SendAndStore(main: VideoData, data: bool, o: Observation, store: Storage, maxLog: int)
      returns (sent: Option<Payload>, record: Record)
      modifies this`startTime, this`endTime, this`sequence, store
      ensures sent.Some? <==> data
      ensures sent.Some? ==> sent.value == Payload(version, o.isoDate, startTime, endTime, sessionId, o.location,
                                        userAgent, appVersion, sequence, [main.Snapshot(o)], [])
      ensures Counts() == (if data then Handoff(old(Counts()), o.perfNow) else old(Counts()))
      ensures record == StoredRecord(userAgent, o.location, o.info, o.quality, old(store.CachedLog((sessionId, main.videoId))),
                                     main.latestQoe, o.now, maxLog)
      ensures store.records == old(store.records)[(sessionId, main.videoId) := record]
    {
      sent := None;
      if data {
        var p := ToJson(main, o);
        sent := Some(p);
      }
      var key := (sessionId, main.videoId);
      record := StoredRecord(userAgent, o.location, o.info, o.quality, store.CachedLog(key), main.latestQoe, o.now, maxLog);
      store.Save(key, record);
    }

    /** The request part of `_transaction`: a truthy score joins the video's buffer. */
    static method AskQoe(main: VideoData, request: bool, o: Observation) returns (qoe: Option<real>)
      modifies main`latestQoe
      ensures qoe == (if request then RequestQoe(o.reply) else None)
      ensures main.latestQoe == old(main.latestQoe) +
                                (if Truthy(qoe) then [QoeSample(o.receivedAt, qoe.value)] else [])
    {
      qoe := None;
      if request {
        qoe := RequestQoe(o.reply);
        if Truthy(qoe) {
          main.AddLatestQoe(QoeSample(o.receivedAt, qoe.value));
        }
      }
    }

    /**
     * One pass of either loop of `_play_started`: on an available video the
     * send and request decisions for tick `i`, then `_transaction`.
     */
    method Tick(main: VideoData, cfg: Config, steady: bool, i: nat, o: Observation, store: Storage)
      returns (tick: TickRecord)
      modifies this`startTime, this`endTime, this`sequence, main`latestQoe, store
      ensures tick == ExpectedTick(cfg, steady, i, o)
      ensures Counts() == (if tick.data then Handoff(old(Counts()), o.perfNow) else old(Counts()))
      ensures sequence == old(sequence) + (if tick.data then 1 else 0)
      ensures store.records ==
                if tick.stored then
                  old(store.records)[(sessionId, main.videoId) :=
                    StoredRecord(userAgent, o.location, o.info, o.quality, LogIn(old(store.records), (sessionId, main.videoId)),
                                 old(main.latestQoe), o.now, cfg.maxLog)]
                else old(store.records)
      ensures main.latestQoe == old(main.latestQoe) +
                                (if Truthy(tick.qoe) then [QoeSample(o.receivedAt, tick.qoe.value)] else [])
    {
      var data, request := false, false;
      if o.available {
        data := DataDue(cfg, i);
        request := if steady then SteadyRequestDue(cfg, i) else i > QoeRequestStart(cfg);
      }
      var qoe, sent, saved := Transaction(main, data, request, o, store, cfg.maxLog);
      tick := TickRecord(data, request, o.available, qoe);
    }

    /**
     * `_play_started(main_video)`: the latest-QoE phase runs until a truthy
     * score arrives or `qoe_request_timeout` ticks have passed, then the
     * steady phase continues the same tick count; either returns as soon as
     * the main video changes after a tick. `obs[i]` is what the world
     * supplies at tick `i`; the run also ends when `obs` does.
     */
    method PlayStarted(main: VideoData, cfg: Config, obs: seq<Observation>, store: Storage)
      returns (trace: seq<TickRecord>, switched: bool, ghost latestTicks: nat)
      modifies this`startTime, this`endTime, this`sequence, main`latestQoe, store
      ensures |trace| <= |obs|
      ensures latestTicks <= |trace|
      ensures latestTicks <= (if QoeRequestTimeout(cfg) < 0 then 0 else QoeRequestTimeout(cfg))
      ensures forall t :: 0 <= t < latestTicks ==> trace[t] == ExpectedTick(cfg, false, t, obs[t])
      ensures forall t :: latestTicks <= t < |trace| ==> trace[t] == ExpectedTick(cfg, true, t, obs[t])
      ensures forall t :: 0 <= t < latestTicks - 1 ==> !Truthy(trace[t].qoe)
      ensures latestTicks < |trace| ==>
                latestTicks >= QoeRequestTimeout(cfg) || (latestTicks > 0 && Truthy(trace[latestTicks - 1].qoe))
      ensures forall t :: 0 <= t < |trace| - 1 ==> obs[t].mainKept
      ensures switched <==> |trace| > 0 && !obs[|trace| - 1].mainKept
      ensures !switched ==> |trace| == |obs|
      ensures Counts() == HandoffAll(old(Counts()), SendClocks(trace, obs))
      ensures sequence == old(sequence) + CountSends(trace)
      ensures main.latestQoe == old(main.latestQoe) + Appended(trace, obs)
      ensures cfg.maxCountForQoe >= 1 ==> CountRequests(trace[..latestTicks]) <= cfg.maxCountForQoe - 1
      ensures store.records == StoreAfter(SiteOf(main, cfg), old(store.records), old(main.latestQoe), trace, obs)
      ensures forall k :: k != (sessionId, main.videoId) ==>
                (k in store.records <==> k in old(store.records)) &&
                (k in old(store.records) ==> store.records[k] == old(store.records)[k])
      ensures (forall t :: 0 <= t < |trace| ==> !obs[t].available) ==> store.records == old(store.records)
    {
      ghost var counts0, qoe0, records0 := Counts(), main.latestQoe, store.records;
      var first, kept := LatestPhase(main, cfg, obs, store);
      latestTicks := |first|;
      if cfg.maxCountForQoe >= 1 {
        LatestPhaseRequests(cfg, first, obs);
      }
      if !kept {
        SequenceOfClocks(counts0, first, obs);
        PhasesJoin(cfg, obs, first, first);
        StoreOnlyMain(SiteOf(main, cfg), records0, qoe0, first, obs);
        return first, true, latestTicks;
      }
      trace, switched := SteadyPhase(main, cfg, obs, store, first, counts0, qoe0, records0);
      SequenceOfClocks(counts0, trace, obs);
      PhasesJoin(cfg, obs, first, trace);
      StoreOnlyMain(SiteOf(main, cfg), records0, qoe0, trace, obs);
    }

    /** A latest-phase run `first` followed by a steady-phase run: what each tick of the whole run did. */
    static lemma PhasesJoin(cfg: Config, obs: seq<Observation>, first: seq<TickRecord>, trace: seq<TickRecord>)
      requires PhaseTrace(cfg, false, obs, [], first) && PhaseTrace(cfg, true, obs, first, trace)
      requires |first| < |trace| ==> first == [] || obs[|first| - 1].mainKept
      ensures trace[..|first|] == first
      ensures forall t :: 0 <= t < |first| ==> trace[t] == ExpectedTick(cfg, false, t, obs[t])
      ensures forall t :: |first| <= t < |trace| ==> trace[t] == ExpectedTick(cfg, true, t, obs[t])
      ensures forall t :: 0 <= t < |first| - 1 ==> !Truthy(trace[t].qoe)
      ensures forall t :: 0 <= t < |trace| - 1 ==> obs[t].mainKept
      ensures forall t :: 0 <= t < |trace| ==> trace[t].stored == obs[t].available
    {
      forall t | 0 <= t < |first|
        ensures trace[t] == first[t]
      {
        assert trace[t] == trace[..|first|][t];
      }
    }

    /** The first loop of `_play_started`, from tick 0. */
    method LatestPhase(main: VideoData, cfg: Config, obs: seq<Observation>, store: Storage)
      returns (trace: seq<TickRecord>, kept: bool)
      modifies this`startTime, this`endTime, this`sequence, main`latestQoe, store
      ensures PhaseTrace(cfg, false, obs, [], trace)
      ensures |trace| <= (if QoeRequestTimeout(cfg) < 0 then 0 else QoeRequestTimeout(cfg))
      ensures !kept <==> |trace| > 0 && !obs[|trace| - 1].mainKept
      ensures kept ==> |trace| == |obs| || |trace| >= QoeRequestTimeout(cfg) ||
                       (|trace| > 0 && Truthy(trace[|trace| - 1].qoe))
      ensures Counts() == HandoffAll(old(Counts()), SendClocks(trace, obs))
      ensures main.latestQoe == old(main.latestQoe) + Appended(trace, obs)
      ensures store.records == StoreAfter(SiteOf(main, cfg), old(store.records), old(main.latestQoe), trace, obs)
    {
      ghost var site := SiteOf(main, cfg);
      var qoeRequestTimeout := QoeRequestTimeout(cfg);
      var i := 0;
      var qoe: Option<real> := None;
      trace, kept := [], true;
      while kept && !Truthy(qoe) && i < qoeRequestTimeout && i < |obs|
        invariant i == |trace| <= |obs|
        invariant i <= (if qoeRequestTimeout < 0 then 0 else qoeRequestTimeout)
        invariant PhaseTrace(cfg, false, obs, [], trace)
        invariant qoe == if i == 0 then None else trace[i - 1].qoe
        invariant kept <==> i == 0 || obs[i - 1].mainKept
        invariant Counts() == HandoffAll(old(Counts()), SendClocks(trace, obs))
        invariant main.latestQoe == old(main.latestQoe) + Appended(trace, obs)
        invariant store.records == StoreAfter(site, old(store.records), old(main.latestQoe), trace, obs)
      {
        var tick := NextTick(main, cfg, false, obs, store, [], trace, old(Counts()), old(main.latestQoe), site, old(store.records));
        trace := trace + [tick];
        qoe := tick.qoe;
        kept := obs[i].mainKept;
        i := i + 1;
      }
    }

    /** The second loop of `_play_started`, continuing the tick count after `prefix`. */
    method SteadyPhase(main: VideoData, cfg: Config, obs: seq<Observation>, store: Storage,
                       prefix: seq<TickRecord>, ghost counts0: Counters, ghost qoe0: seq<QoeSample>,
                       ghost records0: map<(string, string), Record>)
      returns (trace: seq<TickRecord>, switched: bool)
      requires |prefix| <= |obs|
      requires Counts() == HandoffAll(counts0, SendClocks(prefix, obs))
      requires main.latestQoe == qoe0 + Appended(prefix, obs)
      requires store.records == StoreAfter(SiteOf(main, cfg), records0, qoe0, prefix, obs)
      modifies this`startTime, this`endTime, this`sequence, main`latestQoe, store
      ensures PhaseTrace(cfg, true, obs, prefix, trace)
      ensures switched <==> |prefix| < |trace| && !obs[|trace| - 1].mainKept
      ensures !switched ==> |trace| == |obs|
      ensures Counts() == HandoffAll(counts0, SendClocks(trace, obs))
      ensures main.latestQoe == qoe0 + Appended(trace, obs)
      ensures store.records == StoreAfter(SiteOf(main, cfg), records0, qoe0, trace, obs)
    {
      ghost var site := SiteOf(main, cfg);
      var i := |prefix|;
      trace, switched := prefix, false;
      while !switched && i < |obs|
        invariant i == |trace| && PhaseTrace(cfg, true, obs, prefix, trace)
        invariant switched <==> |prefix| < i && !obs[i - 1].mainKept
        invariant Counts() == HandoffAll(counts0, SendClocks(trace, obs))
        invariant main.latestQoe == qoe0 + Appended(trace, obs)
        invariant store.records == StoreAfter(site, records0, qoe0, trace, obs)
      {
        var tick := NextTick(main, cfg, true, obs, store, prefix, trace, counts0, qoe0, site, records0);
        trace := trace + [tick];
        switched := !obs[i].mainKept;
        i := i + 1;
      }
    }

    /**
     * The tick after `trace` in either loop, with the counters and the
     * score buffer accounted over the longer trace.
     */
    method NextTick(main: VideoData, cfg: Config, steady: bool, obs: seq<Observation>, store: Storage,
                    ghost prefix: seq<TickRecord>, trace: seq<TickRecord>,
                    ghost counts0: Counters, ghost qoe0: seq<QoeSample>,
                    ghost site: SaveSite, ghost records0: map<(string, string), Record>)
      returns (tick: TickRecord)
      requires PhaseTrace(cfg, steady, obs, prefix, trace) && |trace| < |obs|
      requires |prefix| < |trace| ==> obs[|trace| - 1].mainKept && (steady || !Truthy(trace[|trace| - 1].qoe))
      requires Counts() == HandoffAll(counts0, SendClocks(trace, obs))
      requires main.latestQoe == qoe0 + Appended(trace, obs)
      requires site == SiteOf(main, cfg)
      requires store.records == StoreAfter(site, records0, qoe0, trace, obs)
      modifies this`startTime, this`endTime, this`sequence, main`latestQoe, store
      ensures PhaseTrace(cfg, steady, obs, prefix, trace + [tick])
      ensures Counts() == HandoffAll(counts0, SendClocks(trace + [tick], obs))
      ensures main.latestQoe == qoe0 + Appended(trace + [tick], obs)
      ensures store.records == StoreAfter(site, records0, qoe0, trace + [tick], obs)
    {
      ghost var before, beforeQoe, beforeStore := Counts(), main.latestQoe, store.records;
      tick := Tick(main, cfg, steady, |trace|, obs[|trace|], store);
      PhaseTraceStep(cfg, steady, obs, prefix, trace, tick);
      ClocksStep(trace, tick, obs, counts0, before, Counts());
      QoeStep(trace, tick, obs, qoe0, beforeQoe, main.latestQoe);
      StoreStep(site, records0, qoe0, trace, tick, obs, beforeStore, store.records);
    }

    /** The save site of a run of `_play_started` on `main`. */
    function SiteOf(main: VideoData, cfg: Config): SaveSite {
      SaveSite((sessionId, main.videoId), userAgent, cfg.maxLog)
    }

    /**
     * `trace` extends `prefix` by ticks of one phase, one per observation:
     * each the tick `ExpectedTick` gives; every one of them but the last
     * kept the main video and, in the latest-QoE phase, got no score.
     */
    static ghost predicate PhaseTrace(cfg: Config, steady: bool, obs: seq<Observation>, prefix: seq<TickRecord>,
                                      trace: seq<TickRecord>) {
      |prefix| <= |trace| <= |obs| && trace[..|prefix|] == prefix &&
      (forall t :: |prefix| <= t < |trace| ==> trace[t] == ExpectedTick(cfg, steady, t, obs[t])) &&
      forall t :: |prefix| <= t < |trace| - 1 ==> obs[t].mainKept && (steady || !Truthy(trace[t].qoe))
    }

    static lemma PhaseTraceStep(cfg: Config, steady: bool, obs: seq<Observation>, prefix: seq<TickRecord>,
                                trace: seq<TickRecord>, tick: TickRecord)
      requires PhaseTrace(cfg, steady, obs, prefix, trace) && |trace| < |obs|
      requires |prefix| < |trace| ==> obs[|trace| - 1].mainKept && (steady || !Truthy(trace[|trace| - 1].qoe))
      requires tick == ExpectedTick(cfg, steady, |trace|, obs[|trace|])
      ensures PhaseTrace(cfg, steady, obs, prefix, trace + [tick])
    {
      assert (trace + [tick])[..|prefix|] == trace[..|prefix|];
    }

    static lemma TraceStep(trace: seq<TickRecord>, tick: TickRecord, obs: seq<Observation>)
      requires |trace| < |obs|
      ensures Appended(trace + [tick], obs) == Appended(trace, obs) +
                (if Truthy(tick.qoe) then [QoeSample(obs[|trace|].receivedAt, tick.qoe.value)] else [])
    {
      assert (trace + [tick])[..|trace|] == trace;
    }

    /** The buffer after one more tick holds the scores appended over one more tick. */
    static lemma QoeStep(trace: seq<TickRecord>, tick: TickRecord, obs: seq<Observation>,
                         q0: seq<QoeSample>, before: seq<QoeSample>, after: seq<QoeSample>)
      requires |trace| < |obs|
      requires before == q0 + Appended(trace, obs)
      requires after == before + (if Truthy(tick.qoe) then [QoeSample(obs[|trace|].receivedAt, tick.qoe.value)] else [])
      ensures after == q0 + Appended(trace + [tick], obs)
    {
      TraceStep(trace, tick, obs);
    }

    /** The counters after one more tick are the handoffs over one more send clock, if the tick sent. */
    static lemma ClocksStep(trace: seq<TickRecord>, tick: TickRecord, obs: seq<Observation>,
                            c: Counters, before: Counters, after: Counters)
      requires |trace| < |obs|
      requires before == HandoffAll(c, SendClocks(trace, obs))
      requires after == if tick.data then Handoff(before, obs[|trace|].perfNow) else before
      ensures after == HandoffAll(c, SendClocks(trace + [tick], obs))
    {
      assert (trace + [tick])[..|trace|] == trace;
      assert SendClocks(trace + [tick], obs) ==
             SendClocks(trace, obs) + (if tick.data then [obs[|trace|].perfNow] else []);
      if tick.data {
        HandoffAllSnoc(c, SendClocks(trace, obs), obs[|trace|].perfNow);
      } else {
        assert SendClocks(trace, obs) + [] == SendClocks(trace, obs);
      }
    }
  }
}
