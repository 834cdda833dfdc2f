/** Command-line configuration of the extent table: the option codes that
    getopt_long hands back, processed one at a time into the column string,
    where the last column option wins and -h, a missing operand or an
    unknown option ends the run. */
module Conf {
  import opened Util
  import opened Format

  /** COLUMNS_DEFAULT_IN_SECTORS and COLUMNS_DEFAULT_IN_BYTES. */
  const ColumnsInSectors := "lifc"
  const ColumnsInBytes := "LIFC"

  /** k_shortopts: the leading ':' makes getopt report a missing operand as
      ':' rather than '?'; "t:" means -t takes an operand. */
  const ShortOpts := ":t:Bsh"

  datatype HasArg = NoArgument | RequiredArgument

  /** struct option, without its flag pointer (always NULL here). */
  datatype LongOption = LongOption(name: string, hasArg: HasArg, code: char)

  /** k_longopts. */
  const LongOptions: seq<LongOption> := [
    LongOption("table", RequiredArgument, 't'),
    LongOption("bytes", NoArgument, 'B'),
    LongOption("sectors", NoArgument, 's'),
    LongOption("secs", NoArgument, 's'),
    LongOption("help", NoArgument, 'h')
  ]

  /** Whether an optstring declares c, and if so whether c takes an operand. */
  function ShortOptionSpec(c: char, spec: string): Option<HasArg>
    decreases |spec|
  {
    if spec == [] then None
    else if spec[0] == ':' then ShortOptionSpec(c, spec[1..])
    else if spec[0] == c then Some(if |spec| > 1 && spec[1] == ':' then RequiredArgument else NoArgument)
    else ShortOptionSpec(c, spec[1..])
  }

  /** The short code of the entry of table with exactly the name given
      (the first such entry). Abbreviated names, which getopt_long also
      accepts, are not covered. */
  function LongOptionCode(name: string, table: seq<LongOption>): (code: Option<char>)
    ensures code.Some? ==> exists k | 0 <= k < |table| :: table[k].name == name && table[k].code == code.value
    ensures code.None? ==> forall k | 0 <= k < |table| :: table[k].name != name
    decreases |table|
  {
    if table == [] then None
    else if table[0].name == name then Some(table[0].code)
    else
      var rest := LongOptionCode(name, table[1..]);
      assert rest.Some? ==> exists k | 0 <= k < |table[1..]| :: table[1..][k].name == name && table[1..][k].code == rest.value;
      assert forall k | 0 <= k < |table[1..]| :: table[1..][k] == table[k + 1];
      rest
  }

  /** Each long option name, written out in full, stands for the short
      option with the same meaning; a name that is no entry's name stands
      for nothing. */
  lemma LongOptionsMapToShortCodes()
    ensures LongOptionCode("table", LongOptions) == Some('t')
    ensures LongOptionCode("bytes", LongOptions) == Some('B')
    ensures LongOptionCode("sectors", LongOptions) == Some('s')
    ensures LongOptionCode("secs", LongOptions) == Some('s')
    ensures LongOptionCode("help", LongOptions) == Some('h')
    ensures LongOptionCode("offset", LongOptions) == None
  {
    var t := LongOptions;
    assert t[1..] == [t[1], t[2], t[3], t[4]];
    assert t[2..] == [t[2], t[3], t[4]];
    assert t[3..] == [t[3], t[4]];
    assert t[4..] == [t[4]];
  }

  /** Each long option takes an operand exactly when its short option does. */
  lemma LongOptionsAgreeWithShortOptions()
    ensures forall k | 0 <= k < |LongOptions| ::
      ShortOptionSpec(LongOptions[k].code, ShortOpts) == Some(LongOptions[k].hasArg)
    ensures ShortOptionSpec('x', ShortOpts) == None
  {
    var o := ShortOpts;
    assert o[1..] == "t:Bsh";
    assert o[2..] == ":Bsh";
    assert o[3..] == "Bsh";
    assert o[4..] == "sh";
    assert o[5..] == "h";
    assert o[6..] == "";
  }

  /** One getopt_long call that returned an option: its return value, and
      optarg, optopt and argv[optind - 1] as they stand after the call. A
      NUL optopt stands for optopt == 0. */
  datatype OptionEvent = OptionEvent(opt: char, optarg: string, optopt: char, current: string)

  /** How processing an option can end the run: the help text and success,
      die(message), or die(BUG(message)). The BUG() macro's own text is not
      part of this model. */
  datatype Halt = ShowHelp | Die(message: string) | Bug(message: string)

  /** What one option (or a whole option list) does to the configuration. */
  datatype Action = SetColumns(columns: string) | Stop(halt: Halt)

  predicate IsColumnOption(ev: OptionEvent) {
    ev.opt == 't' || ev.opt == 'B' || ev.opt == 's'
  }

  /** die_unrecognized_option: name the option by optopt when getopt set
      it, else by the argument getopt_long just consumed when long options
      are compiled in; with neither, the diagnostic itself is a bug. */
  function DieUnrecognizedOption(ev: OptionEvent, acceptLongopts: bool): (h: Halt)
    ensures h != ShowHelp
    ensures h.Die? <==> ev.optopt != '\0' || acceptLongopts
    ensures ev.optopt != '\0' ==> h == Die("unrecognized option: -" + [ev.optopt])
    ensures ev.optopt == '\0' && acceptLongopts ==> h == Die("unrecognized option: " + ev.current)
  {
    if ev.optopt != '\0' then Die("unrecognized option: -" + [ev.optopt])
    else if acceptLongopts then Die("unrecognized option: " + ev.current)
    else Bug("unrecognized option diagnostic failed")
  }

  /** process_option: -t, -B and -s overwrite the column string (the old
      one plays no part), -h ends the run successfully and every other code
      ends it with a diagnostic. */
  function ProcessOption(ev: OptionEvent, acceptLongopts: bool): (a: Action)
    ensures a.SetColumns? <==> IsColumnOption(ev)
    ensures ev.opt == 't' ==> a == SetColumns(ev.optarg)
    ensures ev.opt == 'B' ==> a == SetColumns(ColumnsInBytes)
    ensures ev.opt == 's' ==> a == SetColumns(ColumnsInSectors)
    ensures ev.opt == 'h' ==> a == Stop(ShowHelp)
    ensures ev.opt == ':' ==> a == Stop(Die("missing operand for -" + [ev.optopt] + " option"))
    ensures ev.opt == '?' ==> a == Stop(DieUnrecognizedOption(ev, acceptLongopts))
    ensures !IsColumnOption(ev) && ev.opt !in {'h', ':', '?'} ==> a.Stop? && a.halt.Bug?
  {
    match ev.opt
    case 't' => SetColumns(ev.optarg)
    case 'B' => SetColumns(ColumnsInBytes)
    case 's' => SetColumns(ColumnsInSectors)
    case 'h' => Stop(ShowHelp)
    case ':' => Stop(Die("missing operand for -" + [ev.optopt] + " option"))
    case '?' => Stop(DieUnrecognizedOption(ev, acceptLongopts))
    case _ => Stop(Bug("getopt() returned " + Dec(ev.opt as nat) + " '" + [ev.opt] + "'"))
  }

  /** The options processed in order from the column string columns: the
      final column string, or how the first option that ends the run ends it. */
  function Configure(columns: string, events: seq<OptionEvent>, acceptLongopts: bool): Action
    decreases |events|
  {
    if events == [] then SetColumns(columns)
    else match ProcessOption(events[0], acceptLongopts)
      case SetColumns(c) => Configure(c, events[1..], acceptLongopts)
      case Stop(h) => Stop(h)
  }

  /** A run of options configures the table exactly when every option in it
      is -t, -B or -s, and then the column string is the one the last of
      them sets, or the starting one when there are none. */
  lemma {:induction false} LastColumnOptionWins(columns: string, events: seq<OptionEvent>, acceptLongopts: bool)
    ensures Configure(columns, events, acceptLongopts).SetColumns?
      <==> forall k | 0 <= k < |events| :: IsColumnOption(events[k])
    ensures (forall k | 0 <= k < |events| :: IsColumnOption(events[k])) ==>
      Configure(columns, events, acceptLongopts) ==
        (if events == [] then SetColumns(columns) else ProcessOption(events[|events| - 1], acceptLongopts))
    decreases |events|
  {
    if events != [] {
      var rest := events[1..];
      assert forall k | 0 <= k < |rest| :: rest[k] == events[k + 1];
      match ProcessOption(events[0], acceptLongopts)
      case SetColumns(c) =>
        LastColumnOptionWins(c, rest, acceptLongopts);
        if rest != [] {
          assert rest[|rest| - 1] == events[|events| - 1];
        }
      case Stop(h) =>
    }
  }

  /** -h ends the run successfully whatever column options came before it
      and whatever follows it. */
  lemma {:induction false} HelpAlwaysSucceeds(columns: string, before: seq<OptionEvent>, help: OptionEvent,
                                              after: seq<OptionEvent>, acceptLongopts: bool)
    requires forall k | 0 <= k < |before| :: IsColumnOption(before[k])
    requires help.opt == 'h'
    ensures Configure(columns, before + [help] + after, acceptLongopts) == Stop(ShowHelp)
    decreases |before|
  {
    var all := before + [help] + after;
    if before == [] {
      assert all[0] == help;
    } else {
      assert all[0] == before[0];
      assert all[1..] == before[1..] + [help] + after;
      HelpAlwaysSucceeds(ProcessOption(before[0], acceptLongopts).columns, before[1..], help, after, acceptLongopts);
    }
  }

  /** Once an option ends the run, no later option is processed. */
  lemma {:induction false} StopIsFinal(columns: string, events: seq<OptionEvent>, more: seq<OptionEvent>, acceptLongopts: bool)
    requires Configure(columns, events, acceptLongopts).Stop?
    ensures Configure(columns, events + more, acceptLongopts) == Configure(columns, events, acceptLongopts)
    decreases |events|
  {
    assert (events + more)[0] == events[0];
    match ProcessOption(events[0], acceptLongopts)
    case SetColumns(c) =>
      assert (events + more)[1..] == events[1..] + more;
      StopIsFinal(c, events[1..], more, acceptLongopts);
    case Stop(h) =>
  }

  /** struct conf. */
  class Conf {
    var columns: string

    constructor ()
      ensures columns == ""
    {
      columns := "";
    }
  }

  /** How get_table_configuration ends: the value it returns, or the way an
      option ended the run and what die() then writes to standard error
      (nothing for the help text, which goes to standard output). */
  datatype Outcome = Configured(result: int) | Halted(halt: Halt, stderr: string)

  /** get_table_configuration: sets the program name from argv[0], starts
      from the sector columns, processes every option getopt_long reports
      (events, in order), and returns optind - 1, where optind is getopt's
      index once it reports no more options. */
  method GetTableConfiguration(argv: seq<string>, events: seq<OptionEvent>, optind: nat, acceptLongopts: bool,
                               pn: ProgramName, cp: Conf) returns (outcome: Outcome)
    requires |argv| > 0
    requires pn.name == None
    modifies pn, cp
    ensures pn.name == Some(argv[0])
    ensures match Configure(ColumnsInSectors, events, acceptLongopts)
      case SetColumns(c) => cp.columns == c && outcome == Configured(optind - 1)
      case Stop(h) =>
        && outcome.Halted? && outcome.halt == h
        && (h.ShowHelp? ==> outcome.stderr == "")
        && (!h.ShowHelp? ==> outcome.stderr == DieText(argv[0], h.message))
  {
    pn.SetProgname(argv[0]);
    cp.columns := ColumnsInSectors;
    var i := 0;
    while i < |events|
      invariant 0 <= i <= |events|
      invariant pn.name == Some(argv[0])
      invariant Configure(ColumnsInSectors, events, acceptLongopts) == Configure(cp.columns, events[i..], acceptLongopts)
    {
      assert events[i..][0] == events[i] && events[i..][1..] == events[i + 1..];
      var action := ProcessOption(events[i], acceptLongopts);
      if action.Stop? {
        if action.halt.ShowHelp? {
          return Halted(action.halt, "");
        }
        var stderr := pn.Die(action.halt.message);
        return Halted(action.halt, stderr);
      }
      cp.columns := action.columns;
      i := i + 1;
    }
    assert events[i..] == [];
    outcome := Configured(optind - 1);
  }
}
