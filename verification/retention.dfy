/**
 * `clean_old_data`: the retention sweep over an output directory. The
 * directory tree is a snapshot; each file carries the result of
 * `get_file_modify_time` and each entry whether the filesystem lets it be
 * removed. Times (modification times, the cutoff, the start of a dated
 * directory's day) are integers of seconds on one local clock whose day 0
 * starts at 0001-01-01 00:00.
 */
module Retention {
  import opened Wrappers
  import opened Text
  import opened Calendar

  /**
   * A directory entry. `mtime` is what `get_file_modify_time` returned: none
   * when reading the modification time failed. `removable` says whether
   * `os.remove`, `os.rmdir` or `shutil.rmtree` on the entry succeeds.
   */
  datatype Entry =
    | File(name: string, mtime: Option<int>, removable: bool)
    | Dir(name: string, entries: seq<Entry>, removable: bool)

  const SecondsPerDay: int := 86400

  /** `datetime.now() - timedelta(days=days_to_keep)`. */
  function Cutoff(now: int, daysToKeep: int): int {
    now - daysToKeep * SecondsPerDay
  }

  /** `file_time and file_time < cutoff_date`: the time is known and strictly earlier. */
  predicate Expired(e: Entry, cutoff: int) {
    e.File? && e.mtime.Some? && e.mtime.value < cutoff
  }

  /** The walk deletes this file and counts it. */
  predicate Doomed(e: Entry, cutoff: int) {
    Expired(e, cutoff) && e.removable
  }

  function CountFiles(es: seq<Entry>): nat {
    if es == [] then 0
    else (match es[0] case File(_, _, _) => 1 case Dir(_, sub, _) => CountFiles(sub)) + CountFiles(es[1..])
  }

  function CountDirs(es: seq<Entry>): nat {
    if es == [] then 0
    else (match es[0] case File(_, _, _) => 0 case Dir(_, sub, _) => 1 + CountDirs(sub)) + CountDirs(es[1..])
  }

  /** The files anywhere in the tree that the walk deletes. */
  function CountDoomed(es: seq<Entry>, cutoff: int): nat {
    if es == [] then 0
    else
      (match es[0]
       case File(_, _, _) => if Doomed(es[0], cutoff) then 1 else 0
       case Dir(_, sub, _) => CountDoomed(sub, cutoff))
      + CountDoomed(es[1..], cutoff)
  }

  /** The files anywhere in the tree that the walk keeps. */
  function CountKept(es: seq<Entry>, cutoff: int): nat {
    if es == [] then 0
    else
      (match es[0]
       case File(_, _, _) => if Doomed(es[0], cutoff) then 0 else 1
       case Dir(_, sub, _) => CountKept(sub, cutoff))
      + CountKept(es[1..], cutoff)
  }

  /** No directory anywhere in the tree is both empty and removable. */
  predicate Settled(es: seq<Entry>) {
    es == [] ||
    ((match es[0]
      case File(_, _, _) => true
      case Dir(_, sub, ok) => (sub != [] || !ok) && Settled(sub))
     && Settled(es[1..]))
  }

  /**
   * The walk deletes every entry of `es`, at every depth: each file is doomed,
   * and each directory is removable and has its own contents cleared.
   */
  predicate Cleared(es: seq<Entry>, cutoff: int) {
    es == [] ||
    ((match es[0]
      case File(_, _, _) => Doomed(es[0], cutoff)
      case Dir(_, sub, ok) => ok && Cleared(sub, cutoff))
     && Cleared(es[1..], cutoff))
  }

  /**
   * The walk deletes this entry: a doomed file, or a removable directory that
   * is empty once its own contents have been processed.
   */
  predicate Gone(e: Entry, cutoff: int) {
    match e
    case File(_, _, _) => Doomed(e, cutoff)
    case Dir(_, sub, ok) => ok && Cleared(sub, cutoff)
  }

  /**
   * `xs` is what the walk leaves of `es`: the entries that are `Gone` are
   * deleted; every other file stays as it is, and every other directory stays
   * with its name and flag and with what the walk leaves of its contents; the
   * order is kept.
   */
  predicate Pruned(xs: seq<Entry>, es: seq<Entry>, cutoff: int) {
    if es == [] then xs == []
    else if Gone(es[0], cutoff) then Pruned(xs, es[1..], cutoff)
    else
      && xs != []
      && Pruned(xs[1..], es[1..], cutoff)
      && match es[0]
         case File(_, _, _) => xs[0] == es[0]
         case Dir(n, sub, ok) => xs[0].Dir? && xs[0].name == n && xs[0].removable == ok && Pruned(xs[0].entries, sub, cutoff)
  }

  /** What the walk leaves and what it counted. */
  datatype Swept = Swept(remaining: seq<Entry>, files: nat, dirs: nat)

  /**
   * The bottom-up `os.walk` over the contents `es` of a directory: each
   * subdirectory's contents are processed first; then each expired file is
   * removed, and each subdirectory that is now empty is removed. A removal that
   * fails is not counted and leaves the entry in place.
   */
  function Walk(es: seq<Entry>, cutoff: int): (r: Swept)
    ensures Pruned(r.remaining, es, cutoff)
    ensures r.remaining == [] <==> Cleared(es, cutoff)
    ensures r.files == CountDoomed(es, cutoff)
    ensures CountFiles(r.remaining) + r.files == CountFiles(es)
    ensures CountKept(r.remaining, cutoff) == CountKept(es, cutoff)
    ensures CountDoomed(r.remaining, cutoff) == 0
    ensures CountDirs(r.remaining) + r.dirs == CountDirs(es)
    ensures Settled(r.remaining)
  {
    if es == [] then Swept([], 0, 0)
    else
      var rest := Walk(es[1..], cutoff);
      match es[0]
      case File(_, _, _) =>
        if Doomed(es[0], cutoff) then Swept(rest.remaining, rest.files + 1, rest.dirs)
        else
          var xs := [es[0]] + rest.remaining;
          assert xs[1..] == rest.remaining;
          Swept(xs, rest.files, rest.dirs)
      case Dir(name, sub, ok) =>
        var inner := Walk(sub, cutoff);
        if inner.remaining == [] && ok then
          Swept(rest.remaining, inner.files + rest.files, inner.dirs + 1 + rest.dirs)
        else
          var xs := [Dir(name, inner.remaining, ok)] + rest.remaining;
          assert xs[1..] == rest.remaining;
          Swept(xs, inner.files + rest.files, inner.dirs + rest.dirs)
  }

  /** Every file is either kept or deleted by the walk. */
  lemma {:induction false} FilesSplit(es: seq<Entry>, cutoff: int)
    ensures CountFiles(es) == CountKept(es, cutoff) + CountDoomed(es, cutoff)
  {
    if es != [] {
      FilesSplit(es[1..], cutoff);
      if es[0].Dir? {
        FilesSplit(es[0].entries, cutoff);
      }
    }
  }

  /**
   * A file whose modification time could not be read, or is not earlier than
   * the cutoff, is never deleted by the walk: a tree of such files keeps all
   * of them.
   */
  lemma {:induction false} UnexpiredFilesKept(es: seq<Entry>, cutoff: int)
    requires forall i :: 0 <= i < |es| ==> es[i].File? && !Expired(es[i], cutoff)
    ensures Walk(es, cutoff).remaining == es
    ensures Walk(es, cutoff).files == 0
  {
    if es != [] {
      UnexpiredFilesKept(es[1..], cutoff);
    }
  }

  /** The prefix of a dated output directory, `雅俗共赏_`. */
  const DatedPrefix: string := "雅俗共赏_"

  /** `os.path.join(output_dir, f"雅俗共赏_{date_str}")`: the name of the directory for date `d`. */
  function DatedDirName(d: Date): (name: string)
    requires Valid(d) && d.year >= 1000
    ensures StartsWith(name, DatedPrefix)
  {
    var name := DatedPrefix + FormatYmd(d);
    assert name[..|DatedPrefix|] == DatedPrefix;
    name
  }

  /** The position of the first `c` in `s`, if any. */
  function IndexOf(s: string, c: char): (r: Option<nat>)
    ensures r.None? <==> c !in s
    ensures r.Some? ==> r.value < |s| && s[r.value] == c && forall k :: 0 <= k < r.value ==> s[k] != c
  {
    if s == [] then None
    else if s[0] == c then Some(0)
    else
      var r := IndexOf(s[1..], c);
      if r.Some? then Some(r.value + 1) else None
  }

  /** `s.split('_')[1]`: the text between the first and the second `_`; none (`IndexError`) without any `_`. */
  function SecondField(s: string): (r: Option<string>)
    ensures r.None? <==> '_' !in s
    ensures r.Some? ==>
              var i := IndexOf(s, '_').value;
              var e := i + 1 + |r.value|;
              && '_' !in r.value && e <= |s| && s[i + 1..e] == r.value
              && (e == |s| || s[e] == '_')
  {
    match IndexOf(s, '_')
    case None => None
    case Some(i) =>
      var rest := s[i + 1..];
      match IndexOf(rest, '_')
      case None => Some(rest)
      case Some(j) => Some(rest[..j])
  }

  /** The field after the first `_` is read back when neither part has another `_`. */
  lemma SecondFieldOf(p: string, x: string)
    requires '_' !in p && '_' !in x
    ensures SecondField(p + "_" + x) == Some(x)
  {
    var s := p + "_" + x;
    assert s[|p|] == '_' && s[..|p|] == p;
    assert s[|p| + 1..] == x;
  }

  /**
   * The date a top-level name stands for: it starts with `雅俗共赏_` and its
   * second `_`-separated field parses as `%Y%m%d`. Anything else (including a
   * parse error, which the sweep reports and skips) gives none.
   */
  function DirDate(name: string): (r: Option<Date>)
    ensures r.Some? ==> Valid(r.value) && StartsWith(name, DatedPrefix)
    ensures r.Some? ==> SecondField(name).Some? && ParseYmd(SecondField(name).value) == r
  {
    if !StartsWith(name, DatedPrefix) then None
    else
      match SecondField(name)
      case None => None
      case Some(f) => ParseYmd(f)
  }

  /** A name without a second field, or whose second field does not parse, is skipped. */
  lemma UnparsableSkipped(name: string)
    ensures SecondField(name).None? || ParseYmd(SecondField(name).value).None? ==> DirDate(name).None?
  {
  }

  /** `雅俗共赏_notes` carries the prefix but no date, so the sweep leaves it alone. */
  lemma NotesSkipped()
    ensures DirDate(DatedPrefix + "notes").None?
  {
    SecondFieldOf("雅俗共赏", "notes");
    assert DatedPrefix + "notes" == "雅俗共赏" + "_" + "notes";
    assert !IsDigit("notes"[0]);
  }

  /** The directory made for date `d` is recognised as the directory of date `d`. */
  lemma DatedNameRoundTrip(d: Date)
    requires Valid(d) && d.year >= 1000
    ensures DirDate(DatedDirName(d)) == Some(d)
  {
    var f := FormatYmd(d);
    assert '_' !in f by {
      forall k | 0 <= k < |f| ensures f[k] != '_' {
        assert IsDigit(f[k]);
      }
    }
    assert DatedPrefix == "雅俗共赏" + "_";
    assert DatedDirName(d) == "雅俗共赏" + "_" + f;
    SecondFieldOf("雅俗共赏", f);
    ParseFormat(d);
  }

  /** `dir_date < cutoff_date`, comparing the start of the directory's day with the cutoff. */
  function DayStart(d: Date): int
    requires Valid(d)
  {
    DayNumber(d) * SecondsPerDay
  }

  /** A top-level entry the second phase deletes with `shutil.rmtree` and counts. */
  predicate DatedDoomed(e: Entry, cutoff: int) {
    && e.Dir?
    && var d := DirDate(e.name);
    && d.Some? && DayStart(d.value) < cutoff
    && e.removable
  }

  /** The top-level entries the second phase leaves, in order. */
  function KeepUndated(es: seq<Entry>, cutoff: int): (r: seq<Entry>)
    ensures forall x :: multiset(r)[x] == if DatedDoomed(x, cutoff) then 0 else multiset(es)[x]
    ensures |r| <= |es|
  {
    if es == [] then []
    else
      var init := es[..|es| - 1];
      var last := es[|es| - 1];
      assert es == init + [last];
      KeepUndated(init, cutoff) + (if DatedDoomed(last, cutoff) then [] else [last])
  }

  /** The loop over `os.listdir(base_dir)` after the walk: delete each expired dated directory. */
  method SweepDated(es: seq<Entry>, cutoff: int) returns (kept: seq<Entry>, removed: nat)
    ensures kept == KeepUndated(es, cutoff)
    ensures removed + |kept| == |es|
  {
    kept := [];
    removed := 0;
    var i := 0;
    while i < |es|
      invariant 0 <= i <= |es|
      invariant kept == KeepUndated(es[..i], cutoff)
      invariant removed + |kept| == i
    {
      assert es[..i + 1][..i] == es[..i];
      if DatedDoomed(es[i], cutoff) {
        removed := removed + 1;
      } else {
        kept := kept + [es[i]];
      }
      i := i + 1;
    }
    assert es[..|es|] == es;
  }

  /** The counts `clean_old_data` returns and the tree it leaves (none: the base directory is missing). */
  datatype Report = Report(files: nat, dirs: nat, after: Option<seq<Entry>>)

  /**
   * `clean_old_data(base_dir, days_to_keep)` at clock time `now`. A missing
   * base directory gives `(0, 0)` and touches nothing. Otherwise the base
   * directory itself stays, the file count is the number of files deleted,
   * and the directory count adds the directories the walk deleted to the
   * dated directories deleted after it.
   */
  method CleanOldData(base: Option<seq<Entry>>, now: int, daysToKeep: int) returns (rep: Report)
    ensures base.None? ==> rep == Report(0, 0, None)
    ensures base.Some? ==>
              var cutoff := Cutoff(now, daysToKeep);
              var walked := Walk(base.value, cutoff);
              var kept := KeepUndated(walked.remaining, cutoff);
              && rep.after == Some(kept)
              && rep.files == CountDoomed(base.value, cutoff)
              && rep.dirs == walked.dirs + (|walked.remaining| - |kept|)
  {
    if base.None? {
      return Report(0, 0, None);
    }
    var cutoff := Cutoff(now, daysToKeep);
    var walked := Walk(base.value, cutoff);
    var kept, removed := SweepDated(walked.remaining, cutoff);
    rep := Report(walked.files, walked.dirs + removed, Some(kept));
  }

  /**
   * A dated directory made on day `d`, left non-empty by the walk, is deleted
   * by a sweep whose cutoff is later than the start of day `d`, and kept by
   * one whose cutoff is not.
   */
  lemma DatedDirectoryExpires(d: Date, sub: seq<Entry>, cutoff: int)
    requires Valid(d) && d.year >= 1000
    ensures var e := Dir(DatedDirName(d), sub, true);
            DatedDoomed(e, cutoff) <==> DayStart(d) < cutoff
  {
    DatedNameRoundTrip(d);
  }

  /** A directory the filesystem refuses to remove stays, under its name, and is not counted. */
  lemma LockedDirectoryStays(name: string, sub: seq<Entry>, cutoff: int)
    ensures var r := Walk([Dir(name, sub, false)], cutoff);
            var inner := Walk(sub, cutoff);
            && r.remaining == [Dir(name, inner.remaining, false)]
            && r.dirs == inner.dirs && r.files == inner.files
  {
  }
}
