/**
 * Naming helpers of `VideoDownloader`: `sanitize_path`, the file extension
 * chosen from the probe's content type, and `get_unique_filename`.
 */
module Naming {
  import opened Text

  /** The characters of the regular expression class `[<>:"|?*]`. */
  const Reserved: string := "<>:\"|?*"

  /** A character `sanitize_path` replaces by `_`. */
  predicate Unsafe(c: char) {
    c in Reserved || c == ' '
  }

  /** `re.sub(r'[<>:"|?*]', '_', path)`. */
  function ReplaceReserved(path: string): (r: string)
    ensures |r| == |path|
    ensures forall k :: 0 <= k < |path| ==> r[k] == if path[k] in Reserved then '_' else path[k]
  {
    if path == [] then []
    else [if path[0] in Reserved then '_' else path[0]] + ReplaceReserved(path[1..])
  }

  /** `path.replace(' ', '_')`. */
  function ReplaceSpaces(path: string): (r: string)
    ensures |r| == |path|
    ensures forall k :: 0 <= k < |path| ==> r[k] == if path[k] == ' ' then '_' else path[k]
  {
    if path == [] then []
    else [if path[0] == ' ' then '_' else path[0]] + ReplaceSpaces(path[1..])
  }

  /**
   * `sanitize_path`: the two passes together replace every reserved character
   * and every space by `_`, keep the length, and leave all other characters.
   */
  function SanitizePath(path: string): (r: string)
    ensures |r| == |path|
    ensures forall k :: 0 <= k < |path| ==> r[k] == if Unsafe(path[k]) then '_' else path[k]
    ensures forall k :: 0 <= k < |r| ==> !Unsafe(r[k])
  {
    ReplaceSpaces(ReplaceReserved(path))
  }

  /** Sanitizing a sanitized path changes nothing. */
  lemma SanitizeIdempotent(path: string)
    ensures SanitizePath(SanitizePath(path)) == SanitizePath(path)
  {
  }

  /**
   * The extension picked from the probe's `content-type`: a case-insensitive
   * substring test for "avi", then "mov", then "webm", and ".mp4" otherwise.
   */
  function Extension(contentType: string): (r: string)
    ensures r in {".mp4", ".avi", ".mov", ".webm"}
    ensures r == ".avi" <==> Contains(Lower(contentType), "avi")
    ensures r == ".mov" <==> !Contains(Lower(contentType), "avi") && Contains(Lower(contentType), "mov")
    ensures r == ".webm" <==>
              && !Contains(Lower(contentType), "avi") && !Contains(Lower(contentType), "mov")
              && Contains(Lower(contentType), "webm")
  {
    var t := Lower(contentType);
    if Contains(t, "avi") then ".avi"
    else if Contains(t, "mov") then ".mov"
    else if Contains(t, "webm") then ".webm"
    else ".mp4"
  }

  /** Minimum number of digits of the counter in a file name. */
  const CounterWidth: nat := 6

  /** `f"{n:06d}"`: the decimal digits of `n`, left-padded with zeros to six characters. */
  function PadCounter(n: nat): (r: string)
    ensures AllDigits(r)
    ensures |r| == if |NatToString(n)| < CounterWidth then CounterWidth else |NatToString(n)|
    ensures DigitsValue(r) == n
  {
    var d := NatToString(n);
    DigitsValueOfNatToString(n);
    if |d| < CounterWidth then
      DigitsValueOfLeadingZeros(CounterWidth - |d|, d);
      Zeros(CounterWidth - |d|) + d
    else d
  }

  /** The part of a file name before the counter: `video_<timestamp>_<thread id % 1000>_`. */
  function NamePrefix(stamp: string, threadIdent: nat): string {
    "video_" + stamp + "_" + NatToString(threadIdent % 1000) + "_"
  }

  /** The incremented counter and the file name built from it. */
  datatype Named = Named(counter: nat, name: string)

  /**
   * `get_unique_filename`: the counter goes up by exactly one and the name is
   * `video_<timestamp>_<thread id % 1000>_<counter, six digits at least>` followed
   * by the extension. The timestamp (`%Y%m%d_%H%M%S` of the clock) and the
   * thread's identifier are inputs.
   */
  function UniqueFilename(counter: nat, stamp: string, threadIdent: nat, ext: string): (r: Named)
    ensures r.counter == counter + 1
    ensures StartsWith(r.name, NamePrefix(stamp, threadIdent))
    ensures |r.name| >= |NamePrefix(stamp, threadIdent)| + CounterWidth + |ext|
    ensures |r.name| == |NamePrefix(stamp, threadIdent)| + |PadCounter(r.counter)| + |ext|
    ensures r.name[|r.name| - |ext|..] == ext
  {
    var p := NamePrefix(stamp, threadIdent);
    var name := p + PadCounter(counter + 1) + ext;
    assert name[..|p|] == p;
    Named(counter + 1, name)
  }

  /** The counter can be read back from the digits between the prefix and the extension. */
  lemma FilenameCounterRoundTrip(counter: nat, stamp: string, threadIdent: nat, ext: string)
    ensures var r := UniqueFilename(counter, stamp, threadIdent, ext);
            var p := |NamePrefix(stamp, threadIdent)|;
            && r.name[p..|r.name| - |ext|] == PadCounter(r.counter)
            && AllDigits(r.name[p..|r.name| - |ext|])
            && DigitsValue(r.name[p..|r.name| - |ext|]) == r.counter
  {
    var r := UniqueFilename(counter, stamp, threadIdent, ext);
    var p := NamePrefix(stamp, threadIdent);
    assert r.name[|p|..|r.name| - |ext|] == PadCounter(counter + 1);
  }

  /**
   * With the timestamp, thread and extension fixed, different counter values
   * give different names: names handed out one after another never collide.
   */
  lemma FilenamesDistinct(c1: nat, c2: nat, stamp: string, threadIdent: nat, ext: string)
    requires c1 != c2
    ensures UniqueFilename(c1, stamp, threadIdent, ext).name != UniqueFilename(c2, stamp, threadIdent, ext).name
  {
    var r1 := UniqueFilename(c1, stamp, threadIdent, ext);
    var r2 := UniqueFilename(c2, stamp, threadIdent, ext);
    FilenameCounterRoundTrip(c1, stamp, threadIdent, ext);
    FilenameCounterRoundTrip(c2, stamp, threadIdent, ext);
  }
}
