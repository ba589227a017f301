/** The write loop of `FileOutputSubcommand`: for each discovered
    application, in discovery order, create its document, derive a filename
    from its route and write the document's contents to that file.

    The filesystem is a map from filename to text, plus the set of filenames
    whose opening fails; the run is recorded as a log of events. What a
    subclass's `file_contents` returns for a document is part of that
    document, so the model stays first-order. */
module FileOutput {

  import opened Outcomes
  import opened RouteFilename

  /** The ways a run stops. */
  datatype Error =
    | NotImplemented(hook: string)  // the base class's `file_contents`
    | Raised(message: string)       // an exception from `create_document` or an overriding hook
    | IoError(filename: string)     // the output file could not be opened for writing

  /** A document, represented by what an overriding `file_contents` makes of it. */
  datatype Document = Document(rendering: Result<string, Error>)

  /** One discovered application: its route, and what `create_document` gives. */
  datatype App = App(route: string, document: Result<Document, Error>)

  /** Whether a subclass overrides the abstract `file_contents` hook. */
  datatype Hook = Inherited | Overridden

  /** A concrete subcommand: its `extension` attribute and its `file_contents` hook. */
  datatype Subcommand = Subcommand(extension: Option<string>, hook: Hook)

  /** Observable effects, in the order they happen. `Write` stands for
      opening `filename` in mode "w", writing `contents` and closing it. */
  datatype Event = Write(filename: string, contents: string) | AfterWrite(filename: string)

  /** The filesystem: file contents by name, and the names that cannot be opened. */
  datatype Disk = Disk(files: map<string, string>, denied: set<string>)

  /** The outcome of a run: what happened, the filesystem afterwards, and the
      error that stopped the run, if any. */
  datatype Run = Run(log: seq<Event>, disk: Disk, failure: Option<Error>)

  /** `file_contents`: the base class's version always fails as unimplemented;
      an override yields the document's rendering, or the error it raises. */
  function FileContents(sub: Subcommand, doc: Document): Result<string, Error>
  {
    match sub.hook
    case Inherited => Err(NotImplemented("file_contents"))
    case Overridden => doc.rendering
  }

  // ---------------------------------------------------------------------
  // Reference view of one application, independent of the filesystem.
  // ---------------------------------------------------------------------

  /** The file an application is written to; the subcommand's extension is used for every one. */
  function Filename(sub: Subcommand, app: App): string
  {
    FilenameFromRoute(app.route, ExtensionText(sub.extension))
  }

  /** The text an application's document renders to, or the error on the way there. */
  function Contents(sub: Subcommand, app: App): Result<string, Error>
  {
    match app.document
    case Err(e) => Err(e)
    case Ok(doc) => FileContents(sub, doc)
  }

  /** Why processing `app` fails, if it does: a document or contents error
      first, and only then a file that cannot be opened. */
  function EntryFailure(sub: Subcommand, app: App, denied: set<string>): (r: Option<Error>)
    ensures r.None? <==> Contents(sub, app).Ok? && Filename(sub, app) !in denied
  {
    match Contents(sub, app)
    case Err(e) => Some(e)
    case Ok(_) => if Filename(sub, app) in denied then Some(IoError(Filename(sub, app))) else None
  }

  /** The index of the first application whose processing fails, or the
      number of applications when none does. */
  function FirstFailure(sub: Subcommand, apps: seq<App>, denied: set<string>): (k: nat)
    ensures k <= |apps|
    ensures forall i :: 0 <= i < k ==> EntryFailure(sub, apps[i], denied).None?
    ensures k < |apps| ==> EntryFailure(sub, apps[k], denied).Some?
    decreases |apps|
  {
    if |apps| == 0 then 0
    else if EntryFailure(sub, apps[0], denied).Some? then 0
    else 1 + FirstFailure(sub, apps[1..], denied)
  }

  // ---------------------------------------------------------------------
  // The operations.
  // ---------------------------------------------------------------------

  /** `after_write_file` as the base class defines it: it does nothing, which
      the log records as a single `AfterWrite` event. */
  function AfterWriteFile(filename: string): seq<Event>
  {
    [AfterWrite(filename)]
  }

  /** `write_file`: compute the contents first, then open, write and close
      the file, then run the `after_write_file` hook, whose default changes nothing.
      A failing `file_contents` therefore leaves even an existing file as it was. */
  function WriteFile(sub: Subcommand, disk: Disk, filename: string, doc: Document): (r: Run)
    ensures r.disk.denied == disk.denied
    ensures r.failure.None? <==> FileContents(sub, doc).Ok? && filename !in disk.denied
    ensures FileContents(sub, doc).Err? ==> r.failure == Some(FileContents(sub, doc).error)
    ensures FileContents(sub, doc).Ok? && filename in disk.denied ==> r.failure == Some(IoError(filename))
    ensures r.failure.Some? ==> r.log == [] && r.disk == disk
    ensures r.failure.None? ==>
              && r.log == [Write(filename, FileContents(sub, doc).value), AfterWrite(filename)]
              && r.disk.files == disk.files[filename := FileContents(sub, doc).value]
  {
    match FileContents(sub, doc)
    case Err(e) => Run([], disk, Some(e))
    case Ok(contents) =>
      if filename in disk.denied then Run([], disk, Some(IoError(filename)))
      else
        var written := disk.(files := disk.files[filename := contents]);
        Run([Write(filename, contents)] + AfterWriteFile(filename), written, None)
  }

  /** One iteration of `invoke`'s loop body: create the document, derive the filename, write. */
  function Step(sub: Subcommand, disk: Disk, app: App): (r: Run)
    ensures r.disk.denied == disk.denied
    ensures r.failure == EntryFailure(sub, app, disk.denied)
    ensures r.failure.Some? ==> r.log == [] && r.disk == disk
    ensures r.failure.None? ==>
              && r.log == [Write(Filename(sub, app), Contents(sub, app).value), AfterWrite(Filename(sub, app))]
              && r.disk.files == disk.files[Filename(sub, app) := Contents(sub, app).value]
  {
    match app.document
    case Err(e) => Run([], disk, Some(e))
    case Ok(doc) =>
      var filename := FilenameFromRoute(app.route, ExtensionText(sub.extension));
      WriteFile(sub, disk, filename, doc)
  }

  /** `invoke`: process the applications in order, stopping at the first failure. */
  function Invoke(sub: Subcommand, apps: seq<App>, disk: Disk): Run
    decreases |apps|
  {
    if |apps| == 0 then Run([], disk, None)
    else
      var first := Step(sub, disk, apps[0]);
      if first.failure.Some? then first
      else
        var rest := Invoke(sub, apps[1..], first.disk);
        Run(first.log + rest.log, rest.disk, rest.failure)
  }

  /** A run fails exactly when some application's processing fails, and then
      with the first such application's error; it never changes which files
      cannot be opened. */
  lemma {:induction false} InvokeOutcome(sub: Subcommand, apps: seq<App>, disk: Disk)
    ensures var r := Invoke(sub, apps, disk);
            var k := FirstFailure(sub, apps, disk.denied);
            && r.disk.denied == disk.denied
            && (r.failure.None? <==> k == |apps|)
            && (k < |apps| ==> r.failure == EntryFailure(sub, apps[k], disk.denied))
    decreases |apps|
  {
    if |apps| > 0 && Step(sub, disk, apps[0]).failure.None? {
      InvokeOutcome(sub, apps[1..], Step(sub, disk, apps[0]).disk);
    }
  }

  // ---------------------------------------------------------------------
  // The event log.
  // ---------------------------------------------------------------------

  /** `log` records, pair by pair, the write of each of the first `k` applications. */
  ghost predicate LogRecords(sub: Subcommand, apps: seq<App>, k: nat, log: seq<Event>)
    requires k <= |apps|
  {
    && |log| == 2 * k
    && forall i :: 0 <= i < k ==>
         && Contents(sub, apps[i]).Ok?
         && log[2 * i] == Write(Filename(sub, apps[i]), Contents(sub, apps[i]).value)
         && log[2 * i + 1] == AfterWrite(Filename(sub, apps[i]))
  }

  /** Prepending one application's pair of events to a log that records the
      following applications gives a log that records them all. */
  lemma {:induction false} LogRecordsCons(sub: Subcommand, apps: seq<App>, k: nat, head: seq<Event>, log: seq<Event>)
    requires 0 < k <= |apps|
    requires Contents(sub, apps[0]).Ok?
    requires head == [Write(Filename(sub, apps[0]), Contents(sub, apps[0]).value), AfterWrite(Filename(sub, apps[0]))]
    requires LogRecords(sub, apps[1..], k - 1, log)
    ensures LogRecords(sub, apps, k, head + log)
  {
    forall i | 0 <= i < k
      ensures Contents(sub, apps[i]).Ok?
      ensures (head + log)[2 * i] == Write(Filename(sub, apps[i]), Contents(sub, apps[i]).value)
      ensures (head + log)[2 * i + 1] == AfterWrite(Filename(sub, apps[i]))
    {
      if i > 0 {
        var j := i - 1;
        assert apps[1..][j] == apps[i];
        assert (head + log)[2 * i] == log[2 * j];
        assert (head + log)[2 * i + 1] == log[2 * j + 1];
      }
    }
  }

  /** The log holds one `Write` and then one `AfterWrite` per processed
      application, in order, each for that application's file and contents;
      applications from the first failing one on leave no trace in it. */
  lemma {:induction false} InvokeLog(sub: Subcommand, apps: seq<App>, disk: Disk)
    ensures LogRecords(sub, apps, FirstFailure(sub, apps, disk.denied), Invoke(sub, apps, disk).log)
    decreases |apps|
  {
    if |apps| > 0 {
      var first := Step(sub, disk, apps[0]);
      if first.failure.None? {
        var k := FirstFailure(sub, apps, disk.denied);
        InvokeLog(sub, apps[1..], first.disk);
        LogRecordsCons(sub, apps, k, first.log, Invoke(sub, apps[1..], first.disk).log);
      }
    }
  }

  // ---------------------------------------------------------------------
  // The filesystem.
  // ---------------------------------------------------------------------

  /** The files the applications write, in order. */
  function Names(sub: Subcommand, apps: seq<App>): (names: seq<string>)
    ensures |names| == |apps|
    ensures forall i :: 0 <= i < |apps| ==> names[i] == Filename(sub, apps[i])
    decreases |apps|
  {
    if |apps| == 0 then [] else [Filename(sub, apps[0])] + Names(sub, apps[1..])
  }

  /** The contents the applications write, in order. */
  function Texts(sub: Subcommand, apps: seq<App>): (texts: seq<string>)
    requires forall i :: 0 <= i < |apps| ==> Contents(sub, apps[i]).Ok?
    ensures |texts| == |apps|
    ensures forall i :: 0 <= i < |apps| ==> texts[i] == Contents(sub, apps[i]).value
    decreases |apps|
  {
    if |apps| == 0 then [] else [Contents(sub, apps[0]).value] + Texts(sub, apps[1..])
  }

  /** `after` is `before` once `texts[i]` has been written to `names[i]` for
      each `i` in order, each in mode "w": the files present before plus one
      per name; each named file holds the text of its last write; every
      other file is as it was. */
  ghost predicate WrittenInOrder(names: seq<string>, texts: seq<string>, before: map<string, string>, after: map<string, string>)
    requires |names| == |texts|
  {
    && (forall f :: f in after <==> f in before || f in names)
    && (forall i :: 0 <= i < |names| && names[i] !in names[i + 1..] ==> names[i] in after && after[names[i]] == texts[i])
    && (forall f :: f in before && f !in names ==> f in after && after[f] == before[f])
  }

  /** Writing one file and then a sequence of files is writing them all, in order. */
  lemma {:induction false} WrittenInOrderCons(name: string, text: string, names: seq<string>, texts: seq<string>,
                                              before: map<string, string>, after: map<string, string>)
    requires |names| == |texts|
    requires WrittenInOrder(names, texts, before[name := text], after)
    ensures WrittenInOrder([name] + names, [text] + texts, before, after)
  {
    var names', texts' := [name] + names, [text] + texts;
    forall i | 0 <= i < |names'| && names'[i] !in names'[i + 1..]
      ensures names'[i] in after && after[names'[i]] == texts'[i]
    {
      if i == 0 {
        assert names'[1..] == names;
      } else {
        assert names'[i + 1..] == names[i..];
      }
    }
  }

  /** The filesystem after a run is the one before it with the processed
      applications written in order; the failing application and everything
      after it leave no trace. */
  lemma {:induction false} InvokeFiles(sub: Subcommand, apps: seq<App>, disk: Disk)
    ensures var k := FirstFailure(sub, apps, disk.denied);
            WrittenInOrder(Names(sub, apps[..k]), Texts(sub, apps[..k]), disk.files, Invoke(sub, apps, disk).disk.files)
    decreases |apps|
  {
    if |apps| > 0 {
      var first := Step(sub, disk, apps[0]);
      if first.failure.None? {
        var k := FirstFailure(sub, apps, disk.denied);
        var tail := apps[1..];
        InvokeFiles(sub, tail, first.disk);
        assert apps[..k][1..] == tail[..k - 1];
        WrittenInOrderCons(Filename(sub, apps[0]), Contents(sub, apps[0]).value,
                           Names(sub, tail[..k - 1]), Texts(sub, tail[..k - 1]),
                           disk.files, Invoke(sub, apps, disk).disk.files);
      }
    }
  }

  // ---------------------------------------------------------------------
  // Consequences.
  // ---------------------------------------------------------------------

  /** Processing `a ++ b` is processing `a` and then, only if nothing in `a`
      failed, processing `b` against the filesystem `a` left. */
  lemma {:induction false} InvokeConcat(sub: Subcommand, a: seq<App>, b: seq<App>, disk: Disk)
    ensures var ra := Invoke(sub, a, disk);
            var rb := Invoke(sub, b, ra.disk);
            Invoke(sub, a + b, disk) == if ra.failure.Some? then ra else Run(ra.log + rb.log, rb.disk, rb.failure)
    decreases |a|
  {
    if |a| == 0 {
      assert a + b == b;
    } else {
      assert (a + b)[0] == a[0];
      assert (a + b)[1..] == a[1..] + b;
      var first := Step(sub, disk, a[0]);
      if first.failure.None? {
        InvokeConcat(sub, a[1..], b, first.disk);
        var ra', rb := Invoke(sub, a[1..], first.disk), Invoke(sub, b, Invoke(sub, a, disk).disk);
        assert first.log + (ra'.log + rb.log) == (first.log + ra'.log) + rb.log;
      }
    }
  }

  /** Once an application fails, no later one is processed: whatever follows
      changes neither the log, nor the filesystem, nor the error. */
  lemma StopsAtFirstFailure(sub: Subcommand, a: seq<App>, b: seq<App>, disk: Disk)
    requires FirstFailure(sub, a, disk.denied) < |a|
    ensures Invoke(sub, a + b, disk) == Invoke(sub, a, disk)
  {
    InvokeOutcome(sub, a, disk);
    InvokeConcat(sub, a, b, disk);
  }

  /** In the log, every `Write` is immediately followed by the `AfterWrite`
      of the same file, and every `AfterWrite` immediately follows that
      file's `Write`: the hook runs once per file, only after its write. */
  lemma AfterWriteFollowsWrite(sub: Subcommand, apps: seq<App>, disk: Disk)
    ensures var log := Invoke(sub, apps, disk).log;
            && (forall p :: 0 <= p < |log| && log[p].Write? ==>
                  p + 1 < |log| && log[p + 1] == AfterWrite(log[p].filename))
            && (forall p :: 0 <= p < |log| && log[p].AfterWrite? ==>
                  0 < p && log[p - 1].Write? && log[p - 1].filename == log[p].filename)
  {
    var log := Invoke(sub, apps, disk).log;
    InvokeLog(sub, apps, disk);
    forall p | 0 <= p < |log|
      ensures log[p].Write? ==> p + 1 < |log| && log[p + 1] == AfterWrite(log[p].filename)
      ensures log[p].AfterWrite? ==> 0 < p && log[p - 1].Write? && log[p - 1].filename == log[p].filename
    {
      var i := p / 2;
      assert 0 <= i < FirstFailure(sub, apps, disk.denied);
      if p == 2 * i {
        assert log[2 * i + 1] == AfterWrite(Filename(sub, apps[i]));
      } else {
        assert p == 2 * i + 1;
        assert log[2 * i] == Write(Filename(sub, apps[i]), Contents(sub, apps[i]).value);
      }
    }
  }

  /** A subcommand that leaves `file_contents` abstract writes nothing: the
      first application's document error, or else the unimplemented hook,
      stops the run before any file is opened. */
  lemma InheritedHookWritesNothing(extension: Option<string>, apps: seq<App>, disk: Disk)
    ensures var r := Invoke(Subcommand(extension, Inherited), apps, disk);
            && r.log == []
            && r.disk == disk
            && (|apps| == 0 ==> r.failure.None?)
            && (|apps| > 0 && apps[0].document.Err? ==> r.failure == Some(apps[0].document.error))
            && (|apps| > 0 && apps[0].document.Ok? ==> r.failure == Some(NotImplemented("file_contents")))
  {
  }

  /** In a sequence without duplicates, no element occurs again later on. */
  lemma NoLaterRepeat(names: seq<string>)
    requires forall i, j :: 0 <= i < j < |names| ==> names[i] != names[j]
    ensures forall i :: 0 <= i < |names| ==> names[i] !in names[i + 1..]
  {
    forall i | 0 <= i < |names|
      ensures names[i] !in names[i + 1..]
    {
      var later := names[i + 1..];
      assert forall m :: 0 <= m < |later| ==> later[m] == names[i + 1 + m];
    }
  }

  /** When the routes are distinct, all start with "/", and do not include
      both "/" and "/index", no processed application's file is overwritten:
      each holds its own application's contents afterwards. */
  lemma DistinctRoutesKeepEveryWrite(sub: Subcommand, apps: seq<App>, disk: Disk)
    requires forall i :: 0 <= i < |apps| ==> |apps[i].route| > 0 && apps[i].route[0] == '/'
    requires forall i, j :: 0 <= i < j < |apps| ==> apps[i].route != apps[j].route
    requires forall i, j :: 0 <= i < |apps| && 0 <= j < |apps| ==> !(apps[i].route == IndexRoute && apps[j].route == "/index")
    ensures var r := Invoke(sub, apps, disk);
            forall i :: 0 <= i < FirstFailure(sub, apps, disk.denied) ==>
              Filename(sub, apps[i]) in r.disk.files && r.disk.files[Filename(sub, apps[i])] == Contents(sub, apps[i]).value
  {
    var k := FirstFailure(sub, apps, disk.denied);
    var names := Names(sub, apps[..k]);
    InvokeFiles(sub, apps, disk);
    forall i, j | 0 <= i < j < k
      ensures names[i] != names[j]
    {
      SlashRoutesCollide(apps[i].route, apps[j].route, ExtensionText(sub.extension));
    }
    NoLaterRepeat(names);
    var after, texts := Invoke(sub, apps, disk).disk.files, Texts(sub, apps[..k]);
    forall i | 0 <= i < k
      ensures Filename(sub, apps[i]) in after && after[Filename(sub, apps[i])] == Contents(sub, apps[i]).value
    {
      assert apps[..k][i] == apps[i];
      assert names[i] == Filename(sub, apps[i]) && texts[i] == Contents(sub, apps[i]).value;
    }
  }

  /** Two applications at "/" and "/foo" whose documents render become
      exactly two files, "index.<ext>" and "foo.<ext>", written in that order. */
  lemma TwoApplications(ext: string, c1: string, c2: string, disk: Disk)
    requires "index." + ext !in disk.denied && "foo." + ext !in disk.denied
    ensures var apps := [App("/", Ok(Document(Ok(c1)))), App("/foo", Ok(Document(Ok(c2))))];
            var r := Invoke(Subcommand(Some(ext), Overridden), apps, disk);
            && r.failure.None?
            && r.log == [Write("index." + ext, c1), AfterWrite("index." + ext), Write("foo." + ext, c2), AfterWrite("foo." + ext)]
            && r.disk.files == disk.files["index." + ext := c1]["foo." + ext := c2]
  {
    var sub := Subcommand(Some(ext), Overridden);
    var index, foo := App("/", Ok(Document(Ok(c1)))), App("/foo", Ok(Document(Ok(c2))));
    var apps := [index, foo];
    assert Filename(sub, index) == "index." + ext;
    assert BaseFromRoute("/foo") == "foo";
    assert Filename(sub, foo) == "foo." + ext;
    var first := Step(sub, disk, index);
    var second := Step(sub, first.disk, foo);
    assert apps[1..] == [foo] && apps[1..][1..] == [];
    assert Invoke(sub, [foo], first.disk) == Run(second.log + [], second.disk, None);
    assert Invoke(sub, apps, disk) == Run(first.log + (second.log + []), second.disk, None);
  }
}
