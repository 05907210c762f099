/** `main`: resolve the arguments, check the path, and scan every entry of the
    directory with the selected style. The file system is a parameter: `probe`
    says what is at a path, and a directory comes with its entries in listing
    order, each already read (or not) by the time it is scanned. */
module Program {
  import opened Text
  import opened Comments
  import opened Scanner
  import opened Cli

  /** One item of `read_dir`: an entry whose text could be read, an entry that
      cannot be read as text (a subdirectory, a file that is not UTF-8), or an
      item that failed to list. */
  datatype Entry = Readable(path: string, contents: string) | Unreadable(path: string) | ListingFailed

  /** What the file system holds at a path. */
  datatype PathKind = Missing | NotADirectory | Directory(entries: seq<Entry>) | Unlistable

  /** How a run ends: the two messages printed instead of results, a panic, or
      the scanned files that `describe` prints. */
  datatype Outcome = NotEnoughArguments | PathDoesNotExist | Aborted | Report(files: seq<CheckedFile>)

  /** The entries that are scanned, in listing order. */
  function Readables(entries: seq<Entry>): (r: seq<Entry>)
    ensures forall k :: 0 <= k < |r| ==> r[k].Readable?
  {
    if |entries| == 0 then []
    else if entries[0].Readable? then [entries[0]] + Readables(entries[1..])
    else Readables(entries[1..])
  }

  /** The scanned entries are exactly the readable ones: each of them is an entry
      of the listing, and every readable entry of the listing is among them. */
  lemma {:induction false} ReadablesExactly(entries: seq<Entry>)
    ensures forall k :: 0 <= k < |Readables(entries)| ==> Readables(entries)[k] in entries
    ensures forall e :: e in entries && e.Readable? ==> e in Readables(entries)
  {
    if |entries| > 0 {
      ReadablesExactly(entries[1..]);
      assert entries == [entries[0]] + entries[1..];
    }
  }

  /** Filtering distributes over concatenation, so the scanned entries keep the
      listing order: the readable entries of a listing are those of its first part
      followed by those of the rest. */
  lemma {:induction false} ReadablesAppend(a: seq<Entry>, b: seq<Entry>)
    ensures Readables(a + b) == Readables(a) + Readables(b)
  {
    if |a| > 0 {
      ReadablesAppend(a[1..], b);
      assert (a + b)[1..] == a[1..] + b;
    } else {
      assert a + b == b;
    }
  }

  /** A single entry is scanned exactly when it is readable. */
  lemma ReadablesSingle(e: Entry)
    ensures Readables([e]) == if e.Readable? then [e] else []
  {
  }

  /** `files` is what `describe` is given for `entries`: one checked file per
      readable entry, in listing order, under the entry's path and scanned with `marker`. */
  predicate ReportsScans(files: seq<CheckedFile>, entries: seq<Entry>, marker: string) {
    && |files| == |Readables(entries)|
    && forall k :: 0 <= k < |files| ==>
         files[k] == CheckedFile(Readables(entries)[k].path, ScanText(Readables(entries)[k].contents, marker))
  }

  /** The loop over `read_dir` in `main`: one `CheckedFile` per readable entry, in
      order; a failed listing item is skipped; an unreadable entry panics, which
      ends the run without results. */
  function ScanEntries(entries: seq<Entry>, marker: string): (r: Option<seq<CheckedFile>>)
    ensures r.None? <==> exists i :: 0 <= i < |entries| && entries[i].Unreadable?
  {
    if |entries| == 0 then
      Some([])
    else
      var rest := ScanEntries(entries[1..], marker);
      assert forall i :: 0 <= i < |entries| - 1 ==> entries[1..][i] == entries[i + 1];
      match entries[0]
      case Unreadable(_) => None
      case ListingFailed => rest
      case Readable(path, contents) =>
        match rest
        case None => None
        case Some(files) => Some([CheckedFile(path, ScanText(contents, marker))] + files)
  }

  /** A run that does not panic reports one checked file per readable entry, in
      listing order, each under the entry's path and scanned with the marker. */
  lemma {:induction false} ScanEntriesFiles(entries: seq<Entry>, marker: string)
    requires ScanEntries(entries, marker).Some?
    ensures ReportsScans(ScanEntries(entries, marker).value, entries, marker)
  {
    if |entries| > 0 {
      ScanEntriesFiles(entries[1..], marker);
      var files := ScanEntries(entries[1..], marker).value;
      if entries[0].Readable? {
        assert ScanEntries(entries, marker).value
          == [CheckedFile(entries[0].path, ScanText(entries[0].contents, marker))] + files;
        ReportsScansCons(entries[0], entries[1..], files, marker);
      } else {
        assert ScanEntries(entries, marker).value == files;
        assert Readables(entries) == Readables(entries[1..]);
      }
    }
  }

  /** A readable entry in front of a listing puts its checked file in front of the report. */
  lemma ReportsScansCons(e: Entry, rest: seq<Entry>, files: seq<CheckedFile>, marker: string)
    requires e.Readable? && ReportsScans(files, rest, marker)
    ensures ReportsScans([CheckedFile(e.path, ScanText(e.contents, marker))] + files, [e] + rest, marker)
  {
    var all := [CheckedFile(e.path, ScanText(e.contents, marker))] + files;
    var readables := Readables([e] + rest);
    assert ([e] + rest)[1..] == rest;
    assert readables == [e] + Readables(rest);
    forall k | 0 < k < |all|
      ensures all[k] == CheckedFile(readables[k].path, ScanText(readables[k].contents, marker))
    {
      assert all[k] == files[k - 1] && readables[k] == Readables(rest)[k - 1];
    }
  }

  /** Every line of a report that meets `ReportsScans` starts with the marker. */
  lemma ReportedLinesStartWithMarker(files: seq<CheckedFile>, entries: seq<Entry>, marker: string)
    requires ReportsScans(files, entries, marker)
    ensures forall k, j :: 0 <= k < |files| && 0 <= j < |files[k].commentLines| ==>
              StartsWith(files[k].commentLines[j].contents, marker)
  {
    forall k, j | 0 <= k < |files| && 0 <= j < |files[k].commentLines|
      ensures StartsWith(files[k].commentLines[j].contents, marker)
    {
      assert files[k].commentLines == ScanText(Readables(entries)[k].contents, marker);
    }
  }

  /** The branch of `main` for a path that is a directory: scan every entry. */
  function ScanDirectory(entries: seq<Entry>, marker: string): (o: Outcome)
    ensures o == Aborted <==> exists i :: 0 <= i < |entries| && entries[i].Unreadable?
    ensures o != Aborted ==> o.Report? && ReportsScans(o.files, entries, marker)
    ensures o.Report? ==> forall k, j :: 0 <= k < |o.files| && 0 <= j < |o.files[k].commentLines| ==>
              StartsWith(o.files[k].commentLines[j].contents, marker)
  {
    match ScanEntries(entries, marker)
    case None => Aborted
    case Some(files) =>
      ScanEntriesFiles(entries, marker);
      ReportedLinesStartWithMarker(files, entries, marker);
      Report(files)
  }

  /** `main`, from the argument vector to the outcome of the run. */
  function Run(argv: seq<string>, probe: string -> PathKind): (o: Outcome)
    ensures o == NotEnoughArguments <==> |argv| <= 1
    ensures |argv| > 1 && probe(argv[1]).Missing? ==> o == PathDoesNotExist
    ensures |argv| > 1 && probe(argv[1]).NotADirectory? ==> o == Report([])
    ensures |argv| > 1 && probe(argv[1]).Unlistable? ==> o == Aborted
    ensures |argv| > 1 && probe(argv[1]).Directory? ==>
              (o == Aborted <==> exists i :: 0 <= i < |probe(argv[1]).entries| && probe(argv[1]).entries[i].Unreadable?)
    ensures |argv| > 1 && probe(argv[1]).Directory? && o != Aborted ==>
              o.Report? && ReportsScans(o.files, probe(argv[1]).entries, Marker(FromToken(argv[|argv| - 1])))
    ensures o.Report? ==> forall k, j :: 0 <= k < |o.files| && 0 <= j < |o.files[k].commentLines| ==>
              StartsWith(o.files[k].commentLines[j].contents, Marker(FromToken(argv[|argv| - 1])))
  {
    match CollectArgs(argv)
    case None => NotEnoughArguments
    case Some(args) =>
      var request := Resolve(args);
      assert request == Request(argv[1], argv[|argv| - 1]);
      var commentType := FromToken(request.styleToken);
      match probe(request.path)
      case Missing => PathDoesNotExist
      case NotADirectory => Report([])
      case Unlistable => Aborted
      case Directory(entries) => ScanDirectory(entries, Marker(commentType))
  }

  /** An unrecognised style token runs exactly like "c": replacing it changes nothing. */
  lemma UnknownTokenRunsLikeC(argv: seq<string>, probe: string -> PathKind)
    requires |argv| > 2 && ToLower(argv[|argv| - 1]) !in AllTokens()
    ensures Run(argv, probe) == Run(argv[..|argv| - 1] + ["c"], probe)
  {
    var argv' := argv[..|argv| - 1] + ["c"];
    assert argv'[1] == argv[1];
    UnknownTokenScansLikeC(argv[|argv| - 1]);
    LowerIs("c", "c");
  }

  /** With one user argument, that argument is both the path and the style token. */
  lemma SingleArgumentDoubleDuty(program: string, arg: string, probe: string -> PathKind)
    ensures probe(arg).Directory? ==>
      match ScanEntries(probe(arg).entries, Marker(FromToken(arg)))
      case None => Run([program, arg], probe) == Aborted
      case Some(files) => Run([program, arg], probe) == Report(files)
  {
  }
}
