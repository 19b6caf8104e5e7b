/**
 * `download_video` as an outcome function. The HEAD probe, the streamed GET,
 * the temp-file size, the rename and the MD5 of the published file are inputs
 * (`World`); the function decides the outcome and the resulting counters,
 * history sets and filename counter, exactly along the branches of the code.
 */
module Download {
  import opened Wrappers
  import opened Text
  import opened History
  import Naming
  import Health

  /** `downloaded_count`, `duplicate_count`, `error_count`, `total_size`. */
  datatype Stats = Stats(downloaded: nat, duplicates: nat, errors: nat, totalSize: nat)

  /** The shared state of a `VideoDownloader` that the workers read and update. */
  datatype Downloader = Downloader(
    stats: Stats,
    history: History,
    health: Health.Failures,
    filenameCounter: nat,
    running: bool)

  /**
   * The state right after `__init__`: zero counters, no failures recorded,
   * and the empty sets updated by `load_download_history` from the history
   * file `f` found in the output directory.
   */
  function Initial(f: HistoryFile): (d: Downloader)
    ensures d.stats == Stats(0, 0, 0, 0)
    ensures d.health == map[] && d.filenameCounter == 0 && d.running
    ensures f.NoFile? || f.Unreadable? ==> d.history == Empty
    ensures f.Document? && f.hashes.Unhashable? ==> d.history == Empty
    ensures f.Document? && !f.hashes.Unhashable? ==> d.history.hashes == FieldElements(f.hashes)
    ensures f.Document? && !f.hashes.Unhashable? && f.urls.Unhashable? ==> d.history.urls == {}
    ensures f.Document? && !f.hashes.Unhashable? && !f.urls.Unhashable? ==> d.history.urls == FieldElements(f.urls)
  {
    Downloader(Stats(0, 0, 0, 0), Load(Empty, f), map[], 0, true)
  }

  /** The statuses the probe and the transfer accept. */
  predicate OkStatus(status: int) {
    status == 200 || status == 206
  }

  /**
   * The `content-length` header of the probe: absent (read as 0), an integer,
   * or a text `int(...)` rejects with an exception.
   */
  datatype LengthHeader = NoLength | Length(value: int) | BadLength

  /** `int(head_response.headers.get('content-length', 0))`. */
  function DeclaredLength(h: LengthHeader): int
    requires !h.BadLength?
  {
    if h.NoLength? then 0 else h.value
  }

  /** The HEAD probe: an exception, or a response with status, length header and content type. */
  datatype Probe =
    | ProbeRaised
    | ProbeReply(status: int, length: LengthHeader, contentType: Option<string>)

  /**
   * One step of `iter_content`: a chunk of `size` bytes, the stop flag found
   * cleared at this chunk (`if not self.running: return False`), or an
   * exception while reading or writing.
   */
  datatype Chunk = Bytes(size: nat) | Stop | Fault

  /** The streamed GET: an exception, or a response with its status and chunk stream. */
  datatype Transfer = TransferRaised | TransferReply(status: int, chunks: seq<Chunk>)

  /**
   * Everything `download_video` learns from outside: the probe, the clock
   * stamp and thread identifier used in the file name, the size of a temp file
   * already at the temp path (none if absent), the transfer, whether
   * `os.rename` succeeds, and the hash `get_file_hash` returns (none when
   * reading the file failed).
   */
  datatype World = World(
    probe: Probe,
    stamp: string,
    threadIdent: nat,
    tempSize: Option<nat>,
    transfer: Transfer,
    renameOk: bool,
    hash: Option<string>)

  /** `if file_hash`: a hash was computed and is not the empty string. */
  predicate Computed(hash: Option<string>) {
    hash.Some? && hash.value != ""
  }

  /** The hashes a commit adds: the computed hash, or nothing. */
  function HashesOf(hash: Option<string>): (s: set<string>)
    ensures Computed(hash) ==> s == {hash.value}
    ensures !Computed(hash) ==> s == {}
  {
    if Computed(hash) then {hash.value} else {}
  }

  /** How the transfer is requested after looking at an existing temp file. */
  datatype ResumePlan = ResumePlan(offset: nat, discardTemp: bool, range: Option<string>, append: bool)

  /**
   * The resume check and request set-up: resume from the temp file's size,
   * unless the declared length is known and the temp file already has at least
   * that many bytes, in which case it is deleted and the download restarts.
   * A `Range: bytes=<offset>-` header and append mode are used exactly when
   * the offset is positive.
   */
  function PlanResume(tempSize: Option<nat>, length: int): (p: ResumePlan)
    ensures p.discardTemp <==> tempSize.Some? && length > 0 && tempSize.value >= length
    ensures tempSize.Some? && !p.discardTemp ==> p.offset == tempSize.value
    ensures p.offset > 0 ==> tempSize == Some(p.offset)
    ensures length > 0 ==> p.offset < length
    ensures p.append <==> p.offset > 0
    ensures p.range.Some? <==> p.offset > 0
    ensures p.range.Some? ==>
              var v := p.range.value;
              && StartsWith(v, "bytes=") && |v| > 7 && v[|v| - 1] == '-'
              && AllDigits(v[6..|v| - 1]) && DigitsValue(v[6..|v| - 1]) == p.offset
  {
    var discard := tempSize.Some? && length > 0 && tempSize.value >= length;
    var offset := if tempSize.Some? && !discard then tempSize.value else 0;
    if offset > 0 then
      var v := "bytes=" + NatToString(offset) + "-";
      assert v[6..|v| - 1] == NatToString(offset);
      DigitsValueOfNatToString(offset);
      ResumePlan(offset, discard, Some(v), true)
    else ResumePlan(offset, discard, None, false)
  }

  /** The number of bytes in the data chunks of `chunks`. */
  function TotalBytes(chunks: seq<Chunk>): nat {
    if chunks == [] then 0
    else (if chunks[0].Bytes? then chunks[0].size else 0) + TotalBytes(chunks[1..])
  }

  /** `k` is where the stream stops: the first chunk that is not data, or the end. */
  ghost predicate StopsAt(chunks: seq<Chunk>, k: int) {
    && 0 <= k <= |chunks|
    && (forall i :: 0 <= i < k ==> chunks[i].Bytes?)
    && (k < |chunks| ==> !chunks[k].Bytes?)
  }

  /** How the chunk loop ends, with `downloaded_size` at that point. */
  datatype StreamEnd = Finished(written: nat) | Halted(written: nat) | Broken(written: nat)

  /**
   * The chunk loop, started with `downloaded_size = written`: it adds every
   * data chunk up to the first stop or fault and ends there.
   */
  function Consume(written: nat, chunks: seq<Chunk>): (e: StreamEnd)
    decreases |chunks|
    ensures forall k :: StopsAt(chunks, k) ==>
              && e.written == written + TotalBytes(chunks[..k])
              && (e.Finished? <==> k == |chunks|)
              && (e.Halted? <==> k < |chunks| && chunks[k].Stop?)
  {
    if chunks == [] then Finished(written)
    else
      match chunks[0]
      case Bytes(n) =>
        var e := Consume(written + n, chunks[1..]);
        assert forall k :: StopsAt(chunks, k) ==>
                 (k > 0 && StopsAt(chunks[1..], k - 1) && chunks[..k][1..] == chunks[1..][..k - 1]);
        e
      case Stop =>
        assert forall k :: StopsAt(chunks, k) ==> k == 0;
        Halted(written)
      case Fault =>
        assert forall k :: StopsAt(chunks, k) ==> k == 0;
        Broken(written)
  }

  /** The loop `for chunk in response.iter_content(...)` written as the loop it is. */
  method StreamToTemp(offset: nat, chunks: seq<Chunk>) returns (e: StreamEnd)
    ensures e == Consume(offset, chunks)
  {
    var written := offset;
    var i := 0;
    while i < |chunks|
      invariant 0 <= i <= |chunks|
      invariant Consume(offset, chunks) == Consume(written, chunks[i..])
    {
      assert chunks[i..][1..] == chunks[i + 1..];
      match chunks[i] {
        case Bytes(n) =>
          written := written + n;
        case Stop =>
          return Halted(written);
        case Fault =>
          return Broken(written);
      }
      i := i + 1;
    }
    e := Finished(written);
  }

  /**
   * The completeness rule `downloaded_size < content_length * 0.8`, in exact
   * integer form; a declared length of 0 or less disables it.
   */
  predicate TooShort(written: nat, length: int) {
    length > 0 && 5 * written < 4 * length
  }

  /** How a download attempt ended. */
  datatype Outcome =
    | UrlSeen       // the URL is in the seen set
    | NotRunning    // the stop flag was already cleared
    | BadProbe      // probe status outside {200, 206}
    | BadTransfer   // transfer status outside {200, 206}
    | Cancelled     // the stop flag was cleared during the transfer
    | Incomplete    // fewer than 80% of the declared bytes
    | RenameFailed  // `os.rename` raised `OSError`
    | ContentSeen   // the published file's hash is in the seen set
    | Stored        // committed
    | Errored       // an exception reached the outer handler

  /**
   * What each outcome does to the counters and the history sets (`d` before,
   * `a` after): duplicates and errors add one to their counter, a commit adds
   * one download, its bytes, its URL and its computed hash, and every other
   * outcome changes nothing.
   */
  predicate Accounted(o: Outcome, d: Downloader, a: Downloader, url: string, written: nat, hash: Option<string>) {
    match o
    case UrlSeen =>
      a.stats == d.stats.(duplicates := d.stats.duplicates + 1) && a.history == d.history
    case ContentSeen =>
      && a.stats == d.stats.(duplicates := d.stats.duplicates + 1) && a.history == d.history
      && HashSeen(d, hash)
    case Errored =>
      a.stats == d.stats.(errors := d.stats.errors + 1) && a.history == d.history
    case Stored =>
      && a.stats == d.stats.(downloaded := d.stats.downloaded + 1, totalSize := d.stats.totalSize + written)
      && a.history == History(d.history.hashes + HashesOf(hash), d.history.urls + {url})
      && !HashSeen(d, hash)
    case _ =>
      a.stats == d.stats && a.history == d.history
  }

  /**
   * The result of one attempt: the outcome, the state after it, the file name
   * assigned (once the probe passed), the bytes counted, and whether the temp
   * file and the final file exist afterwards.
   */
  datatype Attempt = Attempt(
    outcome: Outcome,
    after: Downloader,
    filename: Option<string>,
    written: nat,
    tempExists: bool,
    finalExists: bool)

  /** `download_video` returns `True` only for a committed download. */
  predicate Returned(a: Attempt) {
    a.outcome.Stored?
  }

  /** The declared length, once the probe passed and its header parsed. */
  function ProbeLength(w: World): int
    requires w.probe.ProbeReply? && !w.probe.length.BadLength?
  {
    DeclaredLength(w.probe.length)
  }

  function CountDuplicate(d: Downloader): Downloader {
    d.(stats := d.stats.(duplicates := d.stats.duplicates + 1))
  }

  function CountError(d: Downloader): Downloader {
    d.(stats := d.stats.(errors := d.stats.errors + 1))
  }

  /** The commit under the lock: one more download, its bytes, its URL, and its hash if computed. */
  function Commit(d: Downloader, url: string, written: nat, hash: Option<string>): Downloader {
    d.(stats := d.stats.(downloaded := d.stats.downloaded + 1, totalSize := d.stats.totalSize + written),
       history := History(d.history.hashes + HashesOf(hash), d.history.urls + {url}))
  }

  /** The published file's hash is computed and already in the seen set. */
  predicate HashSeen(d: Downloader, hash: Option<string>) {
    Computed(hash) && hash.value in d.history.hashes
  }

  /** The transfer replied with a status the code accepts. */
  predicate Accepted(w: World) {
    w.transfer.TransferReply? && OkStatus(w.transfer.status)
  }

  /** How the chunk loop ends for this transfer, resumed as `PlanResume` decides for `length`. */
  function Streamed(w: World, length: int): StreamEnd
    requires w.transfer.TransferReply?
  {
    Consume(PlanResume(w.tempSize, length).offset, w.transfer.chunks)
  }

  /** An exception reaches the handler of `Fetch`: the GET raised, or the chunk loop faulted. */
  predicate TransferFaults(w: World, length: int) {
    w.transfer.TransferRaised? || (Accepted(w) && Streamed(w, length).Broken?)
  }

  /** The probe passed its status check and its length header parsed. */
  predicate ProbePassed(w: World) {
    w.probe.ProbeReply? && OkStatus(w.probe.status) && !w.probe.length.BadLength?
  }

  /**
   * An exception reaches the handler of `download_video`: the probe raised,
   * the length header did not parse, or the transfer faulted.
   */
  predicate Raises(w: World) {
    || w.probe.ProbeRaised?
    || (w.probe.ProbeReply? && OkStatus(w.probe.status) && w.probe.length.BadLength?)
    || (ProbePassed(w) && TransferFaults(w, ProbeLength(w)))
  }

  /** The name `get_unique_filename` gives after a passed probe, with the extension its content type selects. */
  function NameFor(d: Downloader, w: World): (name: string)
    requires w.probe.ProbeReply?
    ensures StartsWith(name, Naming.NamePrefix(w.stamp, w.threadIdent))
    ensures |name| >= |ProbeExtension(w)| && name[|name| - |ProbeExtension(w)|..] == ProbeExtension(w)
  {
    Naming.UniqueFilename(d.filenameCounter, w.stamp, w.threadIdent, Naming.Extension(w.probe.contentType.GetOr(""))).name
  }

  /** The extension the probe's content type selects. */
  function ProbeExtension(w: World): string
    requires w.probe.ProbeReply?
  {
    Naming.Extension(w.probe.contentType.GetOr(""))
  }

  /** The attempt gets past the URL check: the URL is new and the running flag is set. */
  predicate Fresh(d: Downloader, url: string) {
    url !in d.history.urls && d.running
  }

  /**
   * The steps after a finished stream of `written` bytes: the completeness
   * rule, the rename to the final name, the hash check and the commit. Only a
   * commit leaves a file under the final name; every other path deletes it or
   * the temp file.
   */
  function Publish(d: Downloader, url: string, name: Option<string>, written: nat, length: int, w: World): (r: Attempt)
    ensures r.outcome.Incomplete? || r.outcome.RenameFailed? || r.outcome.ContentSeen? || r.outcome.Stored?
    ensures r.outcome.Incomplete? <==> TooShort(written, length)
    ensures r.outcome.RenameFailed? <==> !TooShort(written, length) && !w.renameOk
    ensures r.outcome.ContentSeen? <==> !TooShort(written, length) && w.renameOk && HashSeen(d, w.hash)
    ensures r.outcome.Stored? <==> !TooShort(written, length) && w.renameOk && !HashSeen(d, w.hash)
    ensures Accounted(r.outcome, d, r.after, url, r.written, w.hash)
    ensures r.written == written && r.filename == name
    ensures r.finalExists <==> r.outcome.Stored?
    ensures !r.tempExists
    ensures r.after.health == d.health && r.after.filenameCounter == d.filenameCounter && r.after.running == d.running
  {
    if TooShort(written, length) then Attempt(Incomplete, d, name, written, false, false)
    else if !w.renameOk then Attempt(RenameFailed, d, name, written, false, false)
    else if HashSeen(d, w.hash) then
      Attempt(ContentSeen, CountDuplicate(d), name, written, false, false)
    else Attempt(Stored, Commit(d, url, written, w.hash), name, written, false, true)
  }

  /**
   * The steps from the resume check on: the streamed GET, the chunk loop and,
   * when the stream finished, `Publish`. A cancelled stream returns without
   * deleting its temp file, and the running flag it found cleared stays cleared.
   */
  function Fetch(d: Downloader, url: string, name: Option<string>, length: int, w: World): (r: Attempt)
    ensures r.outcome.Errored? || r.outcome.BadTransfer? || r.outcome.Cancelled? || r.outcome.Incomplete?
         || r.outcome.RenameFailed? || r.outcome.ContentSeen? || r.outcome.Stored?
    ensures r.outcome.Errored? <==> TransferFaults(w, length)
    ensures r.outcome.BadTransfer? <==> w.transfer.TransferReply? && !OkStatus(w.transfer.status)
    ensures r.outcome.Cancelled? <==> Accepted(w) && Streamed(w, length).Halted?
    ensures Accepted(w) && Streamed(w, length).Finished? ==>
              var n := Streamed(w, length).written;
              && r.written == n
              && (r.outcome.Incomplete? <==> TooShort(n, length))
              && (r.outcome.RenameFailed? <==> !TooShort(n, length) && !w.renameOk)
              && (r.outcome.ContentSeen? <==> !TooShort(n, length) && w.renameOk && HashSeen(d, w.hash))
              && (r.outcome.Stored? <==> !TooShort(n, length) && w.renameOk && !HashSeen(d, w.hash))
    ensures Accounted(r.outcome, d, r.after, url, r.written, w.hash)
    ensures r.filename == name
    ensures r.finalExists <==> r.outcome.Stored?
    ensures r.outcome.Cancelled? ==> r.tempExists
    ensures r.after.health == d.health && r.after.filenameCounter == d.filenameCounter
    ensures r.after.running == (d.running && !r.outcome.Cancelled?)
  {
    var plan := PlanResume(w.tempSize, length);
    var tempKept := w.tempSize.Some? && !plan.discardTemp;
    match w.transfer
    case TransferRaised => Attempt(Errored, CountError(d), name, plan.offset, false, false)
    case TransferReply(status, chunks) =>
      if !OkStatus(status) then Attempt(BadTransfer, d, name, plan.offset, tempKept, false)
      else
        match Consume(plan.offset, chunks)
        case Halted(written) => Attempt(Cancelled, d.(running := false), name, written, true, false)
        case Broken(written) => Attempt(Errored, CountError(d), name, written, false, false)
        case Finished(written) => Publish(d, url, name, written, length, w)
  }

  /**
   * The steps of `download_video` from the HEAD probe on: the probe's status
   * and length header, the file name, and `Fetch`. A raised probe or a length
   * header `int(...)` rejects is an error; a rejected status is not.
   */
  function Probed(d: Downloader, url: string, w: World): (r: Attempt)
    ensures !r.outcome.UrlSeen? && !r.outcome.NotRunning?
    ensures Accounted(r.outcome, d, r.after, url, r.written, w.hash)
    ensures r.outcome.BadProbe? <==> w.probe.ProbeReply? && !OkStatus(w.probe.status)
    ensures r.outcome.Errored? <==> Raises(w)
    ensures r.outcome.BadTransfer? <==> ProbePassed(w) && w.transfer.TransferReply? && !OkStatus(w.transfer.status)
    ensures r.outcome.Cancelled? <==> ProbePassed(w) && Accepted(w) && Streamed(w, ProbeLength(w)).Halted?
    ensures r.outcome.Incomplete? || r.outcome.RenameFailed? || r.outcome.ContentSeen? || r.outcome.Stored? ==>
              ProbePassed(w) && Accepted(w) && Streamed(w, ProbeLength(w)).Finished?
    ensures ProbePassed(w) && Accepted(w) && Streamed(w, ProbeLength(w)).Finished? ==>
              var n := Streamed(w, ProbeLength(w)).written;
              var length := ProbeLength(w);
              && r.written == n
              && (r.outcome.Incomplete? <==> TooShort(n, length))
              && (r.outcome.RenameFailed? <==> !TooShort(n, length) && !w.renameOk)
              && (r.outcome.ContentSeen? <==> !TooShort(n, length) && w.renameOk && HashSeen(d, w.hash))
              && (r.outcome.Stored? <==> !TooShort(n, length) && w.renameOk && !HashSeen(d, w.hash))
    ensures r.finalExists <==> r.outcome.Stored?
    ensures r.after.health == d.health
    ensures r.after.running == (d.running && !r.outcome.Cancelled?)
    ensures r.after.filenameCounter == d.filenameCounter + (if r.filename.Some? then 1 else 0)
    ensures r.filename.Some? <==> ProbePassed(w)
    ensures r.filename.Some? ==> r.filename.value == NameFor(d, w)
  {
    var tempBefore := w.tempSize.Some?;
    match w.probe
    case ProbeRaised => Attempt(Errored, CountError(d), None, 0, tempBefore, false)
    case ProbeReply(status, lengthHeader, contentType) =>
      if !OkStatus(status) then Attempt(BadProbe, d, None, 0, tempBefore, false)
      else if lengthHeader.BadLength? then Attempt(Errored, CountError(d), None, 0, tempBefore, false)
      else
        NamedFetch(d, url, w)
  }

  /**
   * After a passed probe: `get_unique_filename` names the file, with the
   * extension the content type selects, and `Fetch` does the rest.
   */
  function NamedFetch(d: Downloader, url: string, w: World): (r: Attempt)
    requires ProbePassed(w)
    ensures r.outcome.Errored? || r.outcome.BadTransfer? || r.outcome.Cancelled? || r.outcome.Incomplete?
         || r.outcome.RenameFailed? || r.outcome.ContentSeen? || r.outcome.Stored?
    ensures Accounted(r.outcome, d, r.after, url, r.written, w.hash)
    ensures r.outcome.Errored? <==> TransferFaults(w, ProbeLength(w))
    ensures r.outcome.BadTransfer? <==> w.transfer.TransferReply? && !OkStatus(w.transfer.status)
    ensures r.outcome.Cancelled? <==> Accepted(w) && Streamed(w, ProbeLength(w)).Halted?
    ensures Accepted(w) && Streamed(w, ProbeLength(w)).Finished? ==>
              var n := Streamed(w, ProbeLength(w)).written;
              var length := ProbeLength(w);
              && r.written == n
              && (r.outcome.Incomplete? <==> TooShort(n, length))
              && (r.outcome.RenameFailed? <==> !TooShort(n, length) && !w.renameOk)
              && (r.outcome.ContentSeen? <==> !TooShort(n, length) && w.renameOk && HashSeen(d, w.hash))
              && (r.outcome.Stored? <==> !TooShort(n, length) && w.renameOk && !HashSeen(d, w.hash))
    ensures r.finalExists <==> r.outcome.Stored?
    ensures r.after.health == d.health
    ensures r.after.running == (d.running && !r.outcome.Cancelled?)
    ensures r.after.filenameCounter == d.filenameCounter + 1
    ensures r.filename == Some(NameFor(d, w))
  {
    var named := Naming.UniqueFilename(d.filenameCounter, w.stamp, w.threadIdent, ProbeExtension(w));
    var d1 := d.(filenameCounter := named.counter);
    var r := Fetch(d1, url, Some(named.name), ProbeLength(w), w);
    assert Accounted(r.outcome, d1, r.after, url, r.written, w.hash);
    r
  }

  /**
   * `download_video(url)` against the outside world `w`. A URL already seen is
   * a duplicate before anything else; a cleared running flag, a rejected
   * status, a short stream, a failed rename and a cancellation are silent
   * failures; only exceptions are counted as errors.
   */
  function DownloadVideo(d: Downloader, url: string, w: World): (r: Attempt)
    ensures r.outcome.UrlSeen? <==> url in d.history.urls
    ensures r.outcome.NotRunning? <==> url !in d.history.urls && !d.running
    ensures Accounted(r.outcome, d, r.after, url, r.written, w.hash)
    ensures r.outcome.BadProbe? <==> Fresh(d, url) && w.probe.ProbeReply? && !OkStatus(w.probe.status)
    ensures r.outcome.Errored? <==> Fresh(d, url) && Raises(w)
    ensures r.outcome.BadTransfer? <==>
              Fresh(d, url) && ProbePassed(w) && w.transfer.TransferReply? && !OkStatus(w.transfer.status)
    ensures r.outcome.Cancelled? <==> Fresh(d, url) && ProbePassed(w) && Accepted(w) && Streamed(w, ProbeLength(w)).Halted?
    ensures r.outcome.Incomplete? || r.outcome.RenameFailed? || r.outcome.ContentSeen? || r.outcome.Stored? ==>
              Fresh(d, url) && ProbePassed(w) && Accepted(w) && Streamed(w, ProbeLength(w)).Finished?
    ensures Fresh(d, url) && ProbePassed(w) && Accepted(w) && Streamed(w, ProbeLength(w)).Finished? ==>
              var n := Streamed(w, ProbeLength(w)).written;
              var length := ProbeLength(w);
              && r.written == n
              && (r.outcome.Incomplete? <==> TooShort(n, length))
              && (r.outcome.RenameFailed? <==> !TooShort(n, length) && !w.renameOk)
              && (r.outcome.ContentSeen? <==> !TooShort(n, length) && w.renameOk && HashSeen(d, w.hash))
              && (r.outcome.Stored? <==> !TooShort(n, length) && w.renameOk && !HashSeen(d, w.hash))
    ensures r.finalExists <==> r.outcome.Stored?
    ensures r.after.health == d.health
    ensures r.after.running == (d.running && !r.outcome.Cancelled?)
    ensures r.after.filenameCounter == d.filenameCounter + (if r.filename.Some? then 1 else 0)
    ensures r.filename.Some? <==> Fresh(d, url) && ProbePassed(w)
    ensures r.filename.Some? ==> r.filename.value == NameFor(d, w)
  {
    if url in d.history.urls then Attempt(UrlSeen, CountDuplicate(d), None, 0, w.tempSize.Some?, false)
    else if !d.running then Attempt(NotRunning, d, None, 0, w.tempSize.Some?, false)
    else Probed(d, url, w)
  }

  /** Counters never go down and the history sets only grow. */
  lemma CountersMonotone(d: Downloader, url: string, w: World)
    ensures var a := DownloadVideo(d, url, w).after;
            && a.stats.downloaded >= d.stats.downloaded
            && a.stats.duplicates >= d.stats.duplicates
            && a.stats.errors >= d.stats.errors
            && a.stats.totalSize >= d.stats.totalSize
            && d.history.hashes <= a.history.hashes
            && d.history.urls <= a.history.urls
  {
  }

  /** Every committed download has its URL, and its hash if computed, in the history sets. */
  lemma StoredIsRecorded(d: Downloader, url: string, w: World)
    requires Returned(DownloadVideo(d, url, w))
    ensures var h := DownloadVideo(d, url, w).after.history;
            && h.urls == d.history.urls + {url}
            && (Computed(w.hash) ==> h.hashes == d.history.hashes + {w.hash.value})
            && (!Computed(w.hash) ==> h.hashes == d.history.hashes)
  {
  }

  /**
   * Downloading the same URL twice stores one file: once it is committed, the
   * next attempt at it is a duplicate, whatever the world does, and the
   * download count stays at one more than before.
   */
  lemma SameUrlTwice(d: Downloader, url: string, w1: World, w2: World)
    requires Returned(DownloadVideo(d, url, w1))
    ensures var a1 := DownloadVideo(d, url, w1).after;
            var r2 := DownloadVideo(a1, url, w2);
            && r2.outcome.UrlSeen?
            && r2.after.stats.downloaded == d.stats.downloaded + 1
            && r2.after.stats.duplicates == d.stats.duplicates + 1
            && !r2.finalExists
  {
  }

  /** A world in which every network and filesystem step succeeds and all bytes arrive. */
  predicate Smooth(w: World) {
    && w.probe.ProbeReply? && OkStatus(w.probe.status) && w.probe.length.Length?
    && w.tempSize.None?
    && w.transfer.TransferReply? && OkStatus(w.transfer.status)
    && (forall i :: 0 <= i < |w.transfer.chunks| ==> w.transfer.chunks[i].Bytes?)
    && TotalBytes(w.transfer.chunks) == w.probe.length.value
    && w.renameOk
  }

  /** A smooth transfer delivers exactly the declared bytes, which passes the completeness rule. */
  lemma SmoothTransferCompletes(w: World)
    requires Smooth(w)
    ensures var p := PlanResume(w.tempSize, ProbeLength(w));
            && p.offset == 0
            && Consume(p.offset, w.transfer.chunks) == Finished(ProbeLength(w))
            && !TooShort(ProbeLength(w), ProbeLength(w))
  {
    var chunks := w.transfer.chunks;
    assert StopsAt(chunks, |chunks|);
    assert chunks[..|chunks|] == chunks;
  }

  /**
   * Content dedup: after a URL is committed with a computed hash, a different
   * URL whose smooth download yields the same hash is classified as a
   * duplicate, leaves no file, and does not count as a download.
   */
  lemma SameContentTwice(d: Downloader, url1: string, url2: string, w1: World, w2: World)
    requires d.running
    requires Returned(DownloadVideo(d, url1, w1)) && Computed(w1.hash)
    requires url2 != url1 && url2 !in d.history.urls
    requires Smooth(w2) && w2.hash == w1.hash
    ensures var a1 := DownloadVideo(d, url1, w1).after;
            var r2 := DownloadVideo(a1, url2, w2);
            && r2.outcome.ContentSeen?
            && !r2.finalExists && !r2.tempExists
            && r2.after.stats.downloaded == d.stats.downloaded + 1
            && r2.after.stats.duplicates == d.stats.duplicates + 1
  {
    var r1 := DownloadVideo(d, url1, w1);
    var a1 := r1.after;
    assert Accounted(r1.outcome, d, a1, url1, r1.written, w1.hash);
    assert a1.history.urls == d.history.urls + {url1};
    assert w1.hash.value in a1.history.hashes;
    assert a1.running;
    SmoothTransferCompletes(w2);
    var length := ProbeLength(w2);
    var named := Naming.UniqueFilename(a1.filenameCounter, w2.stamp, w2.threadIdent,
                                       Naming.Extension(w2.probe.contentType.GetOr("")));
    var a1' := a1.(filenameCounter := named.counter);
    var f := Fetch(a1', url2, Some(named.name), length, w2);
    assert f == Publish(a1', url2, Some(named.name), length, length, w2);
    assert f.outcome.ContentSeen?;
    assert DownloadVideo(a1, url2, w2) == f;
  }

  /**
   * Resuming: a temp file of `n` bytes, `0 < n < L`, followed by a stream of
   * the remaining `L - n` bytes is a complete download of exactly `L` bytes,
   * requested with a `Range` header and appended.
   */
  lemma ResumeCompletes(n: nat, length: nat, chunks: seq<Chunk>)
    requires 0 < n < length
    requires forall i :: 0 <= i < |chunks| ==> chunks[i].Bytes?
    requires TotalBytes(chunks) == length - n
    ensures var p := PlanResume(Some(n), length);
            && p.offset == n && p.append && p.range.Some?
            && Consume(p.offset, chunks) == Finished(length)
            && !TooShort(length, length)
  {
    assert StopsAt(chunks, |chunks|);
    assert chunks[..|chunks|] == chunks;
  }

  /**
   * A probe declaring 1000 bytes followed by a transfer of 750 is discarded:
   * no file under the final name, no temp file, and no counter moves (the
   * error count included, since no exception is raised).
   */
  lemma ShortTransferDiscarded(d: Downloader, url: string, w: World)
    requires d.running && url !in d.history.urls
    requires w.probe.ProbeReply? && OkStatus(w.probe.status) && w.probe.length == Length(1000)
    requires w.tempSize.None?
    requires w.transfer == TransferReply(200, [Bytes(500), Bytes(250)])
    ensures var r := DownloadVideo(d, url, w);
            && r.outcome.Incomplete? && r.written == 750
            && !r.finalExists && !r.tempExists
            && r.after.stats == d.stats && r.after.history == d.history
  {
    var chunks := w.transfer.chunks;
    assert StopsAt(chunks, 2);
    assert chunks[..2] == chunks;
    assert TotalBytes(chunks) == 750;
  }

  /** A stop request during the transfer leaves the counters alone and does not delete the temp file. */
  lemma CancelKeepsTemp(d: Downloader, url: string, w: World)
    requires DownloadVideo(d, url, w).outcome.Cancelled?
    ensures var r := DownloadVideo(d, url, w);
            && r.tempExists && !r.finalExists
            && r.after.stats == d.stats && r.after.history == d.history && !r.after.running
  {
  }

  /**
   * A smooth transfer of a new URL whose content is new is stored with exactly
   * the declared bytes: one more download, those bytes added to the total, and
   * the file under its final name.
   */
  lemma SmoothStored(d: Downloader, url: string, w: World)
    requires Fresh(d, url) && Smooth(w) && !HashSeen(d, w.hash)
    ensures var r := DownloadVideo(d, url, w);
            && r.outcome.Stored? && r.written == ProbeLength(w) && r.finalExists
            && r.after.stats.downloaded == d.stats.downloaded + 1
            && r.after.stats.totalSize == d.stats.totalSize + ProbeLength(w)
  {
    SmoothTransferCompletes(w);
  }

  /**
   * `error_count` counts exceptions and nothing else: it goes up by one
   * exactly when the attempt gets past the URL check and an exception
   * reaches the handler, and stays put on every other path.
   */
  lemma ErrorsCountExceptions(d: Downloader, url: string, w: World)
    ensures DownloadVideo(d, url, w).after.stats.errors == d.stats.errors + (if Fresh(d, url) && Raises(w) then 1 else 0)
  {
  }

  /**
   * A rejected probe or transfer status, a short stream and a failed rename
   * move no counter and record nothing.
   */
  lemma SilentFailures(d: Downloader, url: string, w: World)
    requires var o := DownloadVideo(d, url, w).outcome;
             o.BadProbe? || o.BadTransfer? || o.Incomplete? || o.RenameFailed?
    ensures var a := DownloadVideo(d, url, w).after;
            a.stats == d.stats && a.history == d.history
  {
  }

  /**
   * A restart after `save_download_history`: the new downloader starts from
   * the saved sets, with fresh counters.
   */
  method Restart(d: Downloader) returns (e: Downloader)
    ensures e.history == d.history
    ensures e.stats == Stats(0, 0, 0, 0) && e.running && e.filenameCounter == 0
  {
    var f := Save(d.history);
    e := Initial(f);
  }

  /** A URL listed in the history file found at start-up is a duplicate from the first attempt on. */
  lemma RememberedUrlIsDuplicate(hashes: seq<string>, urls: seq<string>, url: string, w: World)
    requires url in urls
    ensures var d := Initial(Document(Strings(hashes), Strings(urls)));
            && d.history == History(Elements(hashes), Elements(urls))
            && DownloadVideo(d, url, w).outcome.UrlSeen?
            && DownloadVideo(d, url, w).after.stats.duplicates == 1
  {
  }
}
