/** The argument descriptor every file-output subcommand registers
    (`FileOutputSubcommand.files_arg`): a positional "files" argument taking
    one or more directories or scripts. */
module FilesArg {

  import opened Outcomes

  /** The pair `(name, options)` handed to the argument parser; only the
      options the source sets are represented. */
  datatype ArgSpec = ArgSpec(name: string, metavar: string, nargs: string, help: string, default: Option<string>)

  const HelpPrefix: string := "The app directories or scripts to generate "
  const HelpSuffix: string := " for"

  /** The descriptor for output files of kind `outputTypeName`. */
  function FilesArgSpec(outputTypeName: string): (a: ArgSpec)
    ensures a.name == "files"
    ensures a.metavar == "DIRECTORY-OR-SCRIPT"
    ensures a.nargs == "+"
    ensures a.default.None?
    ensures |a.help| == |HelpPrefix| + |outputTypeName| + |HelpSuffix|
  {
    ArgSpec("files", "DIRECTORY-OR-SCRIPT", "+", HelpPrefix + outputTypeName + HelpSuffix, None)
  }

  /** The output type a help text was made for, when it has the shape
      `FilesArgSpec` produces. */
  function HelpSubject(help: string): (subject: Option<string>)
    ensures subject.Some? ==> |subject.value| + |HelpPrefix| + |HelpSuffix| == |help|
  {
    if |help| >= |HelpPrefix| + |HelpSuffix|
       && help[..|HelpPrefix|] == HelpPrefix
       && help[|help| - |HelpSuffix|..] == HelpSuffix
    then Some(help[|HelpPrefix|..|help| - |HelpSuffix|])
    else None
  }

  /** The help text names the output type it was made for, recoverably: the
      descriptor is a faithful record of `outputTypeName`. */
  lemma HelpNamesOutputType(outputTypeName: string)
    ensures HelpSubject(FilesArgSpec(outputTypeName).help) == Some(outputTypeName)
  {
    var help := FilesArgSpec(outputTypeName).help;
    assert help[..|HelpPrefix|] == HelpPrefix;
    assert help[|help| - |HelpSuffix|..] == HelpSuffix;
    assert help[|HelpPrefix|..|help| - |HelpSuffix|] == outputTypeName;
  }

  /** Distinct output types get distinct help texts, and nothing else about
      the descriptor depends on the output type. */
  lemma FilesArgSpecInjective(t1: string, t2: string)
    ensures FilesArgSpec(t1) == FilesArgSpec(t2) <==> t1 == t2
    ensures FilesArgSpec(t1).(help := "") == FilesArgSpec(t2).(help := "")
  {
    HelpNamesOutputType(t1);
    HelpNamesOutputType(t2);
  }
}
