# File-output subcommands: route-to-filename rule and write loop

A Dafny model of `FileOutputSubcommand`, the abstract base class of the
command-line subcommands that render each discovered application to a file.
For every `(route, application)` pair it creates the application's document,
turns the route into a filename (`"/"` becomes `index.<ext>`, any other route
loses its first character and gains `.<ext>`), asks the subclass's
`file_contents` hook for the text, writes it in mode `"w"`, and then runs the
`after_write_file` hook.

Modules:

- `Outcomes` (`outcomes.dfy`): `Option` and `Result`, standing in for Python's
  `None` and for an exception that propagates.
- `RouteFilename` (`route_filename.dfy`): `filename_from_route`, the text the
  `extension` attribute formats to, and an inverse (`RouteFromFilename`) used
  to state exactly which routes share a filename.
- `FilesArg` (`files_arg.dfy`): the `files_arg` argument descriptor, and an
  inverse that reads the output type back out of its help text.
- `FileOutput` (`file_output.dfy`): `write_file`, one loop iteration (`Step`)
  and `invoke` as a recursive fold. The filesystem is a map from filename to
  text plus the set of filenames whose opening fails. Each run yields a log of
  `Write(filename, contents)` and `AfterWrite(filename)` events, the final
  filesystem, and the error that stopped it, if any. The per-application
  reference view (`Filename`, `Contents`, `EntryFailure`, `FirstFailure`)
  does not involve the filesystem. The lemmas tie a run to that view.

Modelling choices:

- The mapping returned by application discovery is an input sequence of
  `App(route, document)`, in the mapping's iteration order. `document` is what
  `create_document()` returns, or the error it raises.
- A document is represented by what an overriding `file_contents` returns for
  it (text or an error). `Subcommand.hook` says whether the subclass overrides
  the hook. The inherited hook always fails with `NotImplemented("file_contents")`.
- The class attribute `extension` is an `Option<string>`. The base class
  leaves it `None`, and `"%s" % None` is the text `None`, so an unset
  extension gives names such as `index.None`.
- Python's `route[1:]` on an empty route is empty, so `""` becomes `.<ext>`.
- The rule is usually described as stripping the route's leading `"/"`. The
  code drops the first character whatever it is (`"foo"` becomes
  `oo.<ext>`). The model follows the code.

## Model

| member | source | states |
|---|---|---|
| RouteFilename.BaseDropsFirstCharacter | bokeh/command/subcommands/file_output.py:31-35 | The base for `"/"` is `"index"`. For any other non-empty route, the route's first character followed by the base gives back the route, so exactly one character is dropped, slash or not. The base is one shorter than the route, or empty for an empty route. |
| RouteFilename.FilenameShape | bokeh/command/subcommands/file_output.py:37 | Every filename ends with `"." + ext` and starts with the base name. Its length is the base's length + 1 + the extension's length. |
| RouteFilename.SlashRouteRoundTrip | bokeh/command/subcommands/file_output.py:31-37 | Every route that starts with `"/"`, other than `"/"`, is recovered from its filename by the inverse rule. |
| RouteFilename.IndexRoundTrip | bokeh/command/subcommands/file_output.py:32-37 | The root route `"/"` reads back as `"/index"`. |
| RouteFilename.SlashRoutesCollide | bokeh/command/subcommands/file_output.py:31-37 | Two slash-prefixed routes get the same filename if and only if they are equal or are `"/"` and `"/index"`. |
| RouteFilename.FirstCharacterIgnored | bokeh/command/subcommands/file_output.py:34-37 | Two routes (neither of them `"/"`) that differ only in their first character get the same filename, `rest + "." + ext`. |
| RouteFilename.FilenameExamples | bokeh/command/subcommands/file_output.py:31-37 | Some worked cases: `"/"` gives `index.html`, `"/foo"` gives `foo.html`, `"/foo/bar"` gives `foo/bar.json` (inner slash kept), `"foo"` gives `oo.ext`, `""` gives `.ext`, and an unset extension gives `index.None`. |
| FilesArg.FilesArgSpec | bokeh/command/subcommands/file_output.py:21-29 | The descriptor names `files`, with metavar `DIRECTORY-OR-SCRIPT`, nargs `+` and no default, and its help text is as long as the fixed wording plus the output type. Together with `HelpNamesOutputType`, the help text is the fixed prefix, then the output type, then `" for"`. |
| FilesArg.HelpNamesOutputType | bokeh/command/subcommands/file_output.py:27 | The output type can be read back out of the help text unchanged. |
| FilesArg.FilesArgSpecInjective | bokeh/command/subcommands/file_output.py:21-29 | Two descriptors are equal exactly when their output types are. Apart from the help text, they never differ. |
| FileOutput.WriteFile | bokeh/command/subcommands/file_output.py:49-53 | Success happens exactly when the contents hook succeeds and the file can be opened. On success, the log is one `Write` of those contents then one `AfterWrite`, and only that file's entry changes. On failure, nothing is logged and the filesystem is untouched, even an existing file of that name: the contents are computed before opening. |
| FileOutput.Step | bokeh/command/subcommands/file_output.py:42-47 | One iteration fails exactly as the per-application view says (document error, then contents error, then an unopenable file). Otherwise it writes that application's contents to the route-derived filename with the subcommand's extension. |
| FileOutput.FirstFailure | bokeh/command/subcommands/file_output.py:42-47 | The result is the index of the first application whose processing fails, or the number of applications when none fails. |
| FileOutput.InvokeOutcome | bokeh/command/subcommands/file_output.py:39-47 | A run succeeds if and only if no application fails. Otherwise it fails with the first failing application's error. It never changes which files can be opened. |
| FileOutput.InvokeLog | bokeh/command/subcommands/file_output.py:39-53 | The log has exactly two events per application before the first failure, in iteration order: `Write(filename, contents)` then `AfterWrite(filename)`, with each filename derived from the route and the subcommand's extension. |
| FileOutput.InvokeFiles | bokeh/command/subcommands/file_output.py:42-52 | The final filesystem is the initial one with the files of the applications before the first failure written in order. Each file holds the contents of its last writer, because mode `"w"` overwrites. Every other file is left as it was, so earlier writes survive a later failure. |
| FileOutput.InvokeConcat | bokeh/command/subcommands/file_output.py:42-47 | Processing `a + b` is processing `a` and then, only if nothing in `a` failed, processing `b` on the filesystem `a` left. |
| FileOutput.StopsAtFirstFailure | bokeh/command/subcommands/file_output.py:42-47 | After a failing application, whatever follows changes neither the log, the filesystem nor the error. |
| FileOutput.AfterWriteFollowsWrite | bokeh/command/subcommands/file_output.py:49-57 | Every `Write` is immediately followed by that file's `AfterWrite`. Every `AfterWrite` immediately follows that file's `Write`. |
| FileOutput.InheritedHookWritesNothing | bokeh/command/subcommands/file_output.py:49-62 | A subcommand that does not override `file_contents` logs nothing and leaves the filesystem as it was. With at least one application, it fails with that application's document error or with `NotImplemented("file_contents")`. |
| FileOutput.DistinctRoutesKeepEveryWrite | bokeh/command/subcommands/file_output.py:31-52 | Suppose the routes are distinct, all start with `"/"`, and do not include both `"/"` and `"/index"`. Then every application processed before a failure ends with its own contents in its own file. |
| FileOutput.TwoApplications | bokeh/command/subcommands/file_output.py:31-53 | Applications at `"/"` and `"/foo"` produce exactly `index.<ext>` then `foo.<ext>`, each holding its document's contents. |

## Left out

- Real file I/O at file_output.py:51-52 (`io.open`, UTF-8 encoding, closing): the filesystem is an abstract map, and an unopenable file is a name in `Disk.denied`.
- A write that fails after the file was opened and truncated (disk full, for example) is not modelled. A failure is always at open time, so it leaves the old file intact.
- `decode_utf8` (file_output.py:9,52) is treated as the identity: contents are text. A hook that returns bytes is not distinguished.
- `build_single_handler_applications` and `create_document()` (file_output.py:12,40,43) are external. They are replaced by the input sequence of `App(route, document)`. Routes in a Python mapping are distinct; the sequence may repeat them, which the model handles (later writes overwrite).
- Overrides of `after_write_file` (file_output.py:55-57) are not modelled, including ones that raise. Only the default no-op is modelled, and it appears in the log as `AfterWrite`.
- `Subcommand` inheritance and argparse wiring (file_output.py:6,11,14) are framework plumbing with no behaviour of their own.
- The `abc` check behind `@abstractmethod` (file_output.py:59) is not modelled: Python refuses to instantiate a subclass that does not override `file_contents`. The model lets the inherited hook be called, as happens when an override calls the base method, so `Inherited` stands for that path.
- DistinctRoutesKeepEveryWrite: filenames are compared as strings, so distinct strings are distinct files. There is no path normalisation (`"/./a"` gives `./a.html`, a different key from `a.html`), no case folding (`"/Foo"` and `"/foo"` stay apart), and no resolution of absolute paths (`"//x"` gives `/x.html`). On a real filesystem such routes may still overwrite each other's files.
