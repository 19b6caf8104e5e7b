/**
 * The history store: the seen content hashes and seen source URLs, and the
 * document `download_history.json` that `save_download_history` writes and
 * `load_download_history` reads. The document is modelled by its two fields,
 * not as JSON text.
 */
module History {

  /** `downloaded_hashes` and `downloaded_urls`. */
  datatype History = History(hashes: set<string>, urls: set<string>)

  /** The sets a fresh downloader starts with, before loading. */
  const Empty: History := History({}, {})

  /**
   * One field of the loaded document: missing (`data.get` falls back to `[]`),
   * a list of strings, or a value `set(...)` cannot take (it raises).
   */
  datatype Field = Missing | Strings(items: seq<string>) | Unhashable

  /**
   * The history file as `load_download_history` finds it: absent, unreadable
   * (an `open` error, malformed JSON, or a top-level value that is not an
   * object), or an object with its `hashes` and `urls` fields.
   */
  datatype HistoryFile = NoFile | Unreadable | Document(hashes: Field, urls: Field)

  /** The elements of a list, as `set(...)` collects them. */
  function Elements(xs: seq<string>): (s: set<string>)
    ensures forall x :: x in s <==> x in xs
  {
    set x | x in xs
  }

  /** `set(data.get(key, []))` for a field that does not raise. */
  function FieldElements(f: Field): set<string>
    requires !f.Unhashable?
  {
    if f.Missing? then {} else Elements(f.items)
  }

  /**
   * `load_download_history`: the sets are replaced one after the other, so a
   * file whose `urls` field raises has already replaced the hashes; a missing
   * or unreadable file leaves the sets as they were.
   */
  function Load(current: History, f: HistoryFile): (r: History)
    ensures f.NoFile? || f.Unreadable? ==> r == current
    ensures f.Document? && f.hashes.Unhashable? ==> r == current
    ensures f.Document? && !f.hashes.Unhashable? ==> r.hashes == FieldElements(f.hashes)
    ensures f.Document? && !f.hashes.Unhashable? && f.urls.Unhashable? ==> r.urls == current.urls
    ensures f.Document? && !f.hashes.Unhashable? && !f.urls.Unhashable? ==> r.urls == FieldElements(f.urls)
  {
    match f
    case NoFile => current
    case Unreadable => current
    case Document(hf, uf) =>
      if hf.Unhashable? then current
      else
        var hashes := FieldElements(hf);
        if uf.Unhashable? then History(hashes, current.urls)
        else History(hashes, FieldElements(uf))
  }

  /** No element occurs twice. */
  predicate Distinct(xs: seq<string>) {
    forall i, j :: 0 <= i < j < |xs| ==> xs[i] != xs[j]
  }

  /** `list(s)`: the elements of a set, each once, in some order. */
  method ToList(s: set<string>) returns (xs: seq<string>)
    ensures Elements(xs) == s
    ensures Distinct(xs)
    ensures |xs| == |s|
  {
    xs := [];
    var rest := s;
    while rest != {}
      invariant Elements(xs) + rest == s
      invariant Elements(xs) !! rest
      invariant Distinct(xs)
      invariant |xs| + |rest| == |s|
      decreases rest
    {
      var x :| x in rest;
      xs := xs + [x];
      rest := rest - {x};
    }
  }

  /**
   * `save_download_history`: the document written holds each set as a list.
   * Loading it back, whatever the sets were before, gives the saved sets.
   */
  method Save(h: History) returns (f: HistoryFile)
    ensures f.Document? && f.hashes.Strings? && f.urls.Strings?
    ensures Distinct(f.hashes.items) && Distinct(f.urls.items)
    ensures forall current :: Load(current, f) == h
  {
    var hashes := ToList(h.hashes);
    var urls := ToList(h.urls);
    f := Document(Strings(hashes), Strings(urls));
  }
}
