// Command-line parsing of the H3 applications (args.c): matching argv
// entries against the names of the declared arguments, reading values
// through a scan format, and the checks for repeated, valueless, unparsable,
// unknown and missing required arguments.  sscanf is a parameter: given the
// text and the format it returns the number of conversions made, or -1 for
// sscanf's EOF; a successful conversion records the text it read.

module Args {
  import opened H3Api

  const PARSE_ARGS_SUCCESS: int := 0
  const PARSE_ARGS_HELP: int := 1
  const PARSE_ARGS_REPEATED_ARGUMENT: int := 2
  const PARSE_ARGS_MISSING_VALUE: int := 3
  const PARSE_ARGS_FAILED_PARSE: int := 4
  const PARSE_ARGS_UNKNOWN_ARGUMENT: int := 5
  const PARSE_ARGS_MISSING_REQUIRED: int := 6

  /** The maximum number of names of an argument. */
  const NUM_ARG_NAMES: int := 2

  const MSG_REPEATED: string := "Argument specified multiple times"
  const MSG_MISSING_VALUE: string := "Argument value not present"
  const MSG_FAILED_PARSE: string := "Failed to parse argument"
  const MSG_UNKNOWN: string := "Unknown argument"
  const MSG_MISSING_REQUIRED: string := "Required argument missing"

  /** sscanf(text, format, value). */
  type Scan = (string, string) -> int

  /** An argument the program accepts, with the flag and value parsing
      fills in. */
  class Arg {
    const names: seq<Option<string>>
    const required: bool
    const scanFormat: Option<string>
    var found: bool
    var value: Option<string>

    constructor (names: seq<Option<string>>, required: bool, scanFormat: Option<string>)
      requires |names| == NUM_ARG_NAMES
      ensures this.names == names && this.required == required && this.scanFormat == scanFormat
      ensures !found && value == None
    {
      this.names := names;
      this.required := required;
      this.scanFormat := scanFormat;
      found := false;
      value := None;
    }
  }

  /** The fixed part of an argument. */
  datatype Decl = Decl(names: seq<Option<string>>, required: bool, scanFormat: Option<string>)

  function DeclsOf(args: seq<Arg>): (ds: seq<Decl>)
    ensures |ds| == |args|
  {
    seq(|args|, j requires 0 <= j < |args| => Decl(args[j].names, args[j].required, args[j].scanFormat))
  }

  /** Which entries of args are the help argument. */
  function HelpOf(args: seq<Arg>, helpArg: Arg): (hs: seq<bool>)
    ensures |hs| == |args|
  {
    seq(|args|, j requires 0 <= j < |args| => args[j] == helpArg)
  }

  ghost function FoundOf(args: seq<Arg>): (fs: seq<bool>)
    reads set j | 0 <= j < |args| :: args[j]
    ensures |fs| == |args|
  {
    seq(|args|, j requires 0 <= j < |args| reads set l | 0 <= l < |args| :: args[l] => args[j].found)
  }

  ghost function ValuesOf(args: seq<Arg>): (vs: seq<Option<string>>)
    reads set j | 0 <= j < |args| :: args[j]
    ensures |vs| == |args|
  {
    seq(|args|, j requires 0 <= j < |args| reads set l | 0 <= l < |args| :: args[l] => args[j].value)
  }

  /** s is one of the (at most NUM_ARG_NAMES) names. */
  predicate Names(names: seq<Option<string>>, s: string)
  {
    exists k | 0 <= k < |names| && k < NUM_ARG_NAMES :: names[k] == Some(s)
  }

  /** names[0] of an argument, its main name. */
  function FirstName(names: seq<Option<string>>): Option<string>
  {
    if names == [] then None else names[0]
  }

  /** The first argument from j on that s names, or -1. */
  function FirstArg(decls: seq<Decl>, s: string, j: int): (r: int)
    requires 0 <= j <= |decls|
    ensures r == -1 || j <= r < |decls|
    ensures r >= 0 ==> Names(decls[r].names, s) && forall l | j <= l < r :: !Names(decls[l].names, s)
    ensures r == -1 ==> forall l | j <= l < |decls| :: !Names(decls[l].names, s)
    decreases |decls| - j
  {
    if j == |decls| then -1
    else if Names(decls[j].names, s) then j
    else FirstArg(decls, s, j + 1)
  }

  /** The first required argument from i on that was not found, or -1. */
  function FirstMissing(decls: seq<Decl>, found: seq<bool>, i: int): (r: int)
    requires |found| == |decls| && 0 <= i <= |decls|
    ensures r == -1 || i <= r < |decls|
    ensures r >= 0 ==> decls[r].required && !found[r] && forall l | i <= l < r :: !(decls[l].required && !found[l])
    ensures r == -1 ==> forall l | i <= l < |decls| :: !(decls[l].required && !found[l])
    decreases |decls| - i
  {
    if i == |decls| then -1
    else if decls[i].required && !found[i] then i
    else FirstMissing(decls, found, i + 1)
  }

  /** What _parseArgsList returns and leaves in the arguments; matched lists
      the arguments matched, in order. */
  datatype Outcome = Outcome(code: int, found: seq<bool>, values: seq<Option<string>>,
                             message: Option<string>, detail: Option<string>, matched: seq<int>)

  /** The parse from argv[i] on, with the flags and values so far, whether
      help was found, and the arguments matched so far. */
  function ParseFrom(argv: seq<string>, decls: seq<Decl>, help: seq<bool>, scan: Scan, i: int,
                     found: seq<bool>, values: seq<Option<string>>, foundHelp: bool, matched: seq<int>): (o: Outcome)
    requires |found| == |decls| && |values| == |decls| && |help| == |decls| && i >= 0
    ensures |o.found| == |decls| && |o.matched| >= |matched| && o.matched[..|matched|] == matched
    decreases |argv| - i
  {
    if i >= |argv| then
      var m := if foundHelp then -1 else FirstMissing(decls, found, 0);
      if m == -1 then Outcome(PARSE_ARGS_SUCCESS, found, values, None, None, matched)
      else Outcome(PARSE_ARGS_MISSING_REQUIRED, found, values, Some(MSG_MISSING_REQUIRED), FirstName(decls[m].names), matched)
    else
      var j := FirstArg(decls, argv[i], 0);
      if j == -1 then Outcome(PARSE_ARGS_UNKNOWN_ARGUMENT, found, values, Some(MSG_UNKNOWN), None, matched)
      else if found[j] then Outcome(PARSE_ARGS_REPEATED_ARGUMENT, found, values, Some(MSG_REPEATED), Some(argv[i]), matched)
      else if decls[j].scanFormat.Some? then
        if i + 1 >= |argv| then
          Outcome(PARSE_ARGS_MISSING_VALUE, found, values, Some(MSG_MISSING_VALUE), Some(argv[i]), matched)
        else
          var n := scan(argv[i + 1], decls[j].scanFormat.value);
          if n == 0 then Outcome(PARSE_ARGS_FAILED_PARSE, found, values, Some(MSG_FAILED_PARSE), Some(argv[i]), matched)
          else
            var values' := if n > 0 then values[j := Some(argv[i + 1])] else values;
            ParseFrom(argv, decls, help, scan, i + 2, found[j := true], values', foundHelp || help[j], matched + [j])
      else
        ParseFrom(argv, decls, help, scan, i + 1, found[j := true], values, foundHelp || help[j], matched + [j])
  }

  /** _parseArgsList over argv[1..], argv[0] being the program name. */
  function ParseArgsListSpec(argv: seq<string>, decls: seq<Decl>, help: seq<bool>, scan: Scan,
                             found: seq<bool>, values: seq<Option<string>>): Outcome
    requires |found| == |decls| && |values| == |decls| && |help| == |decls|
  {
    ParseFrom(argv, decls, help, scan, 1, found, values, false, [])
  }

  // ------------------------------------------------------------ methods

  /** The loop over the names of one argument: whether s is one of them. */
  method MatchesName(arg: Arg, s: string) returns (matches: bool)
    requires |arg.names| == NUM_ARG_NAMES
    ensures matches == Names(arg.names, s)
  {
    var k := 0;
    while k < NUM_ARG_NAMES
      invariant 0 <= k <= NUM_ARG_NAMES
      invariant forall l | 0 <= l < k :: arg.names[l] != Some(s)
    {
      if arg.names[k] != None && arg.names[k].value == s {
        return true;
      }
      k := k + 1;
    }
    return false;
  }

  /** The loop over the arguments for one argv entry: the first that it
      names, or -1. */
  method FindArg(args: seq<Arg>, s: string) returns (j: int)
    requires forall l | 0 <= l < |args| :: |args[l].names| == NUM_ARG_NAMES
    ensures j == FirstArg(DeclsOf(args), s, 0)
  {
    ghost var decls := DeclsOf(args);
    j := 0;
    while j < |args|
      invariant 0 <= j <= |args|
      invariant FirstArg(decls, s, j) == FirstArg(decls, s, 0)
    {
      var m := MatchesName(args[j], s);
      if m {
        return j;
      }
      j := j + 1;
    }
    return -1;
  }

  /** Setting the flag of the distinct argument j changes flag j only. */
  lemma FoundUpdate(args: seq<Arg>, j: int, before: seq<bool>, after: seq<bool>)
    requires 0 <= j < |args| && |before| == |args| && |after| == |args|
    requires after[j] && forall l | 0 <= l < |args| && l != j :: after[l] == before[l]
    ensures after == before[j := true]
  {
  }

  /** The writes of a match that goes on: the value when one was
      converted, the flag, and the help flag. */
  method RecordMatch(argv: seq<string>, args: seq<Arg>, helpArg: Arg, scan: Scan, i: int, j: int, foundHelp: bool)
    returns (i': int, foundHelp': bool)
    requires forall a, b | 0 <= a < b < |args| :: args[a] != args[b]
    requires 1 <= i && Continues(argv, DeclsOf(args), scan, i, FoundOf(args)) && j == FirstArg(DeclsOf(args), argv[i], 0)
    modifies args[j]
    ensures FoundOf(args) == old(FoundOf(args))[j := true]
    ensures ValuesOf(args) == NextValues(argv, DeclsOf(args), scan, i, old(FoundOf(args)), old(ValuesOf(args)))
    ensures i' == NextIndex(argv, DeclsOf(args), scan, i, old(FoundOf(args)))
    ensures foundHelp' == (foundHelp || HelpOf(args, helpArg)[j])
  {
    ghost var found, values := FoundOf(args), ValuesOf(args);
    var arg := args[j];
    i' := i;
    if arg.scanFormat.Some? {
      i' := i + 1;
      var n := scan(argv[i'], arg.scanFormat.value);
      if n > 0 {
        arg.value := Some(argv[i']);
      }
    }
    ghost var values' := ValuesOf(args);
    assert values' == NextValues(argv, DeclsOf(args), scan, i, found, values);
    foundHelp' := foundHelp || arg == helpArg;
    arg.found := true;
    FoundUpdate(args, j, found, FoundOf(args));
    assert ValuesOf(args) == values';
    i' := i' + 1;
  }

  /** One match in the loop over argv: the checks for a repeated argument,
      a missing and an unparsable value, then the writes.  done reports an
      early return with its code. */
  method MatchStep(argv: seq<string>, args: seq<Arg>, helpArg: Arg, scan: Scan, i: int, j: int, foundHelp: bool,
                   ghost matched: seq<int>)
    returns (i': int, foundHelp': bool, done: bool, code: int, errorMessage: Option<string>, errorDetail: Option<string>,
             ghost matched': seq<int>)
    requires forall a, b | 0 <= a < b < |args| :: args[a] != args[b]
    requires 1 <= i < |argv| && j == FirstArg(DeclsOf(args), argv[i], 0) && j >= 0
    modifies args[j]
    ensures var before := ParseFrom(argv, DeclsOf(args), HelpOf(args, helpArg), scan, i,
                                    old(FoundOf(args)), old(ValuesOf(args)), foundHelp, matched);
      if done then
        code == before.code && errorMessage == before.message && errorDetail == before.detail
        && FoundOf(args) == before.found && ValuesOf(args) == before.values
      else
        i' > i && before == ParseFrom(argv, DeclsOf(args), HelpOf(args, helpArg), scan, i',
                                      FoundOf(args), ValuesOf(args), foundHelp', matched')
  {
    var arg := args[j];
    var argName := argv[i];
    if arg.found {
      return i, foundHelp, true, PARSE_ARGS_REPEATED_ARGUMENT, Some(MSG_REPEATED), Some(argName), matched;
    }
    if arg.scanFormat.Some? {
      if i + 1 >= |argv| {
        return i + 1, foundHelp, true, PARSE_ARGS_MISSING_VALUE, Some(MSG_MISSING_VALUE), Some(argName), matched;
      }
      var n := scan(argv[i + 1], arg.scanFormat.value);
      if n == 0 {
        return i + 1, foundHelp, true, PARSE_ARGS_FAILED_PARSE, Some(MSG_FAILED_PARSE), Some(argName), matched;
      }
    }
    ParseFromStep(argv, DeclsOf(args), HelpOf(args, helpArg), scan, i, FoundOf(args), ValuesOf(args), foundHelp, matched);
    i', foundHelp' := RecordMatch(argv, args, helpArg, scan, i, j, foundHelp);
    done, code, errorMessage, errorDetail := false, 0, None, None;
    matched' := matched + [j];
  }

  /** The check for missing required arguments: the first required argument
      not found, or -1. */
  method FindMissing(args: seq<Arg>) returns (m: int)
    ensures m == FirstMissing(DeclsOf(args), FoundOf(args), 0)
  {
    ghost var decls, found := DeclsOf(args), FoundOf(args);
    m := 0;
    while m < |args|
      invariant 0 <= m <= |args|
      invariant FirstMissing(decls, found, m) == FirstMissing(decls, found, 0)
    {
      if args[m].required && !args[m].found {
        return m;
      }
      m := m + 1;
    }
    return -1;
  }

  /** _parseArgsList: the result code, the error message and detail, and
      the flags and values left in the arguments, as ParseArgsListSpec
      gives them.  The arguments are distinct objects. */
  method ParseArgsList(argv: seq<string>, args: seq<Arg>, helpArg: Arg, scan: Scan)
    returns (code: int, errorMessage: Option<string>, errorDetail: Option<string>)
    requires forall a, b | 0 <= a < b < |args| :: args[a] != args[b]
    requires forall l | 0 <= l < |args| :: |args[l].names| == NUM_ARG_NAMES
    modifies set j | 0 <= j < |args| :: args[j]
    ensures var o := ParseArgsListSpec(argv, DeclsOf(args), HelpOf(args, helpArg), scan, old(FoundOf(args)), old(ValuesOf(args)));
      code == o.code && errorMessage == o.message && errorDetail == o.detail
      && FoundOf(args) == o.found && ValuesOf(args) == o.values
  {
    ghost var spec := ParseArgsListSpec(argv, DeclsOf(args), HelpOf(args, helpArg), scan, FoundOf(args), ValuesOf(args));
    ghost var matched: seq<int> := [];
    var foundHelp := false;
    var i := 1;
    while i < |argv|
      invariant i >= 1
      invariant spec == ParseFrom(argv, DeclsOf(args), HelpOf(args, helpArg), scan, i, FoundOf(args), ValuesOf(args), foundHelp, matched)
      decreases |argv| - i
    {
      var j := FindArg(args, argv[i]);
      if j == -1 {
        return PARSE_ARGS_UNKNOWN_ARGUMENT, Some(MSG_UNKNOWN), None;
      }
      var done;
      i, foundHelp, done, code, errorMessage, errorDetail, matched := MatchStep(argv, args, helpArg, scan, i, j, foundHelp, matched);
      if done {
        return;
      }
    }
    if !foundHelp {
      var m := FindMissing(args);
      if m != -1 {
        return PARSE_ARGS_MISSING_REQUIRED, Some(MSG_MISSING_REQUIRED), FirstName(args[m].names);
      }
    }
    return PARSE_ARGS_SUCCESS, None, None;
  }

  /** parseArgs without printing the help text: the failure code, or
      PARSE_ARGS_HELP when the help argument was found, or success. */
  method ParseArgs(argv: seq<string>, args: seq<Arg>, helpArg: Arg, scan: Scan) returns (code: int)
    requires forall a, b | 0 <= a < b < |args| :: args[a] != args[b]
    requires forall l | 0 <= l < |args| :: |args[l].names| == NUM_ARG_NAMES
    modifies set j | 0 <= j < |args| :: args[j]
    ensures var o := ParseArgsListSpec(argv, DeclsOf(args), HelpOf(args, helpArg), scan, old(FoundOf(args)), old(ValuesOf(args)));
      code == if o.code != PARSE_ARGS_SUCCESS then o.code else if helpArg.found then PARSE_ARGS_HELP else PARSE_ARGS_SUCCESS
  {
    var failed, errorMessage, errorDetail := ParseArgsList(argv, args, helpArg, scan);
    if failed != PARSE_ARGS_SUCCESS || helpArg.found {
      code := if failed != PARSE_ARGS_SUCCESS then failed else PARSE_ARGS_HELP;
    } else {
      code := PARSE_ARGS_SUCCESS;
    }
  }

  // ------------------------------------------------------------- lemmas

  /** The entry at i matches an argument not yet found, with its value
      present and parsed when it takes one: the parse goes on. */
  predicate Continues(argv: seq<string>, decls: seq<Decl>, scan: Scan, i: int, found: seq<bool>)
    requires |found| == |decls| && i >= 0
  {
    i < |argv| && FirstArg(decls, argv[i], 0) != -1 && !found[FirstArg(decls, argv[i], 0)]
    && (decls[FirstArg(decls, argv[i], 0)].scanFormat.Some? ==>
          i + 1 < |argv| && scan(argv[i + 1], decls[FirstArg(decls, argv[i], 0)].scanFormat.value) != 0)
  }

  /** Where a continuing parse resumes, and the values it records. */
  function NextIndex(argv: seq<string>, decls: seq<Decl>, scan: Scan, i: int, found: seq<bool>): int
    requires |found| == |decls| && i >= 0 && Continues(argv, decls, scan, i, found)
  {
    if decls[FirstArg(decls, argv[i], 0)].scanFormat.Some? then i + 2 else i + 1
  }

  function NextValues(argv: seq<string>, decls: seq<Decl>, scan: Scan, i: int, found: seq<bool>,
                      values: seq<Option<string>>): (vs: seq<Option<string>>)
    requires |found| == |decls| && |values| == |decls| && i >= 0 && Continues(argv, decls, scan, i, found)
    ensures |vs| == |decls|
  {
    var j := FirstArg(decls, argv[i], 0);
    if decls[j].scanFormat.Some? && scan(argv[i + 1], decls[j].scanFormat.value) > 0 then values[j := Some(argv[i + 1])]
    else values
  }

  /** One step of a continuing parse. */
  lemma ParseFromStep(argv: seq<string>, decls: seq<Decl>, help: seq<bool>, scan: Scan, i: int,
                      found: seq<bool>, values: seq<Option<string>>, foundHelp: bool, matched: seq<int>)
    requires |found| == |decls| && |values| == |decls| && |help| == |decls| && i >= 0
    requires Continues(argv, decls, scan, i, found)
    ensures var j := FirstArg(decls, argv[i], 0);
      ParseFrom(argv, decls, help, scan, i, found, values, foundHelp, matched)
      == ParseFrom(argv, decls, help, scan, NextIndex(argv, decls, scan, i, found), found[j := true],
                   NextValues(argv, decls, scan, i, found, values), foundHelp || help[j], matched + [j])
  {
  }

  /** The outcome of a parse that stops at i: nothing more is matched. */
  lemma ParseFromStop(argv: seq<string>, decls: seq<Decl>, help: seq<bool>, scan: Scan, i: int,
                      found: seq<bool>, values: seq<Option<string>>, foundHelp: bool, matched: seq<int>)
    requires |found| == |decls| && |values| == |decls| && |help| == |decls| && i >= 0
    requires !Continues(argv, decls, scan, i, found)
    ensures var o := ParseFrom(argv, decls, help, scan, i, found, values, foundHelp, matched);
      o.found == found && o.matched == matched
      && o.code in {PARSE_ARGS_SUCCESS, PARSE_ARGS_REPEATED_ARGUMENT, PARSE_ARGS_MISSING_VALUE,
                    PARSE_ARGS_FAILED_PARSE, PARSE_ARGS_UNKNOWN_ARGUMENT, PARSE_ARGS_MISSING_REQUIRED}
      && (o.code == PARSE_ARGS_SUCCESS <==> o.message == None)
      && (o.code == PARSE_ARGS_SUCCESS <==> i >= |argv| && (foundHelp || FirstMissing(decls, found, 0) == -1))
      && (o.code == PARSE_ARGS_MISSING_REQUIRED <==> i >= |argv| && !foundHelp && FirstMissing(decls, found, 0) != -1)
  {
  }

  /** Whatever the outcome, the code is one of the parse codes, and
      exactly success carries no message. */
  lemma {:induction false} ParseFromCodes(argv: seq<string>, decls: seq<Decl>, help: seq<bool>, scan: Scan, i: int,
                                          found: seq<bool>, values: seq<Option<string>>, foundHelp: bool, matched: seq<int>)
    requires |found| == |decls| && |values| == |decls| && |help| == |decls| && i >= 0
    ensures var o := ParseFrom(argv, decls, help, scan, i, found, values, foundHelp, matched);
      o.code in {PARSE_ARGS_SUCCESS, PARSE_ARGS_REPEATED_ARGUMENT, PARSE_ARGS_MISSING_VALUE,
                 PARSE_ARGS_FAILED_PARSE, PARSE_ARGS_UNKNOWN_ARGUMENT, PARSE_ARGS_MISSING_REQUIRED}
      && (o.code == PARSE_ARGS_SUCCESS <==> o.message == None)
    decreases |argv| - i
  {
    if Continues(argv, decls, scan, i, found) {
      var j := FirstArg(decls, argv[i], 0);
      ParseFromStep(argv, decls, help, scan, i, found, values, foundHelp, matched);
      ParseFromCodes(argv, decls, help, scan, NextIndex(argv, decls, scan, i, found), found[j := true],
                     NextValues(argv, decls, scan, i, found, values), foundHelp || help[j], matched + [j]);
    } else {
      ParseFromStop(argv, decls, help, scan, i, found, values, foundHelp, matched);
    }
  }

  /** The flags an outcome leaves set are exactly those of found and of
      the arguments matched after matched, each matched once and none of
      them found before. */
  predicate FlagsFromMatches(found: seq<bool>, matched: seq<int>, oFound: seq<bool>, oMatched: seq<int>)
    requires |oFound| == |found| && |oMatched| >= |matched|
  {
    var newly := oMatched[|matched|..];
    (forall x | x in newly :: 0 <= x < |found| && !found[x])
    && (forall a, b | 0 <= a < b < |newly| :: newly[a] != newly[b])
    && (forall l | 0 <= l < |found| :: oFound[l] == (found[l] || l in newly))
  }

  /** Matching j, not found before, in front of matches that keep
      FlagsFromMatches keeps it. */
  lemma FlagsFromMatchesStep(found: seq<bool>, matched: seq<int>, j: int, oFound: seq<bool>, oMatched: seq<int>)
    requires 0 <= j < |found| && !found[j] && |oFound| == |found|
    requires |oMatched| >= |matched| + 1 && oMatched[..|matched| + 1] == matched + [j]
    requires FlagsFromMatches(found[j := true], matched + [j], oFound, oMatched)
    ensures FlagsFromMatches(found, matched, oFound, oMatched)
  {
    var rest := oMatched[|matched| + 1..];
    var newly := oMatched[|matched|..];
    assert newly == [j] + rest by {
      assert oMatched[..|matched| + 1][|matched|] == j;
    }
    assert forall x | x in rest :: x != j && !found[x];
    forall a, b | 0 <= a < b < |newly|
      ensures newly[a] != newly[b]
    {
      if a > 0 {
        assert newly[a] == rest[a - 1] && newly[b] == rest[b - 1];
      } else {
        assert newly[b] in rest;
      }
    }
  }

  /** Whatever the outcome, the flags set are exactly those of the
      arguments newly matched, each matched once and none found before:
      a successful parse names no argument twice. */
  lemma {:induction false} ParseFromFound(argv: seq<string>, decls: seq<Decl>, help: seq<bool>, scan: Scan, i: int,
                                          found: seq<bool>, values: seq<Option<string>>, foundHelp: bool, matched: seq<int>)
    requires |found| == |decls| && |values| == |decls| && |help| == |decls| && i >= 0
    ensures var o := ParseFrom(argv, decls, help, scan, i, found, values, foundHelp, matched);
      FlagsFromMatches(found, matched, o.found, o.matched)
    decreases |argv| - i
  {
    if Continues(argv, decls, scan, i, found) {
      var j := FirstArg(decls, argv[i], 0);
      var found', matched' := found[j := true], matched + [j];
      var values' := NextValues(argv, decls, scan, i, found, values);
      var i' := NextIndex(argv, decls, scan, i, found);
      ParseFromStep(argv, decls, help, scan, i, found, values, foundHelp, matched);
      ParseFromFound(argv, decls, help, scan, i', found', values', foundHelp || help[j], matched');
      var o := ParseFrom(argv, decls, help, scan, i', found', values', foundHelp || help[j], matched');
      FlagsFromMatchesStep(found, matched, j, o.found, o.matched);
    } else {
      ParseFromStop(argv, decls, help, scan, i, found, values, foundHelp, matched);
    }
  }

  /** Whether help is among the matched arguments. */
  predicate HelpMatched(help: seq<bool>, ms: seq<int>)
  {
    exists x | x in ms :: 0 <= x < |help| && help[x]
  }

  /** A missing required argument is reported only when help was neither
      found before matched nor among the later matches, and names a
      required argument left unset; success without help means every
      required argument was found. */
  predicate RequiredKept(decls: seq<Decl>, help: seq<bool>, foundHelp: bool, matched: seq<int>,
                         code: int, oFound: seq<bool>, oMatched: seq<int>)
    requires |oFound| == |decls| && |oMatched| >= |matched|
  {
    var newly := oMatched[|matched|..];
    (code == PARSE_ARGS_MISSING_REQUIRED ==>
       !foundHelp && !HelpMatched(help, newly) && exists l | 0 <= l < |decls| :: decls[l].required && !oFound[l])
    && (code == PARSE_ARGS_SUCCESS && !foundHelp && !HelpMatched(help, newly) ==>
          forall l | 0 <= l < |decls| :: decls[l].required ==> oFound[l])
  }

  /** Matching j in front of matches that keep RequiredKept keeps it. */
  lemma RequiredKeptStep(decls: seq<Decl>, help: seq<bool>, foundHelp: bool, matched: seq<int>, j: int,
                         code: int, oFound: seq<bool>, oMatched: seq<int>)
    requires 0 <= j < |help| && |oFound| == |decls|
    requires |oMatched| >= |matched| + 1 && oMatched[..|matched| + 1] == matched + [j]
    requires RequiredKept(decls, help, foundHelp || help[j], matched + [j], code, oFound, oMatched)
    ensures RequiredKept(decls, help, foundHelp, matched, code, oFound, oMatched)
  {
    var rest := oMatched[|matched| + 1..];
    var newly := oMatched[|matched|..];
    assert newly == [j] + rest by {
      assert oMatched[..|matched| + 1][|matched|] == j;
    }
    if HelpMatched(help, rest) {
      var x :| x in rest && 0 <= x < |help| && help[x];
      assert x in newly;
    }
    if help[j] {
      assert j in newly;
    }
  }

  /** The required-argument check, whatever the outcome. */
  lemma {:induction false} ParseFromRequired(argv: seq<string>, decls: seq<Decl>, help: seq<bool>, scan: Scan, i: int,
                                             found: seq<bool>, values: seq<Option<string>>, foundHelp: bool, matched: seq<int>)
    requires |found| == |decls| && |values| == |decls| && |help| == |decls| && i >= 0
    ensures var o := ParseFrom(argv, decls, help, scan, i, found, values, foundHelp, matched);
      RequiredKept(decls, help, foundHelp, matched, o.code, o.found, o.matched)
    decreases |argv| - i
  {
    if Continues(argv, decls, scan, i, found) {
      var j := FirstArg(decls, argv[i], 0);
      var found', matched' := found[j := true], matched + [j];
      var values' := NextValues(argv, decls, scan, i, found, values);
      var i' := NextIndex(argv, decls, scan, i, found);
      ParseFromStep(argv, decls, help, scan, i, found, values, foundHelp, matched);
      ParseFromRequired(argv, decls, help, scan, i', found', values', foundHelp || help[j], matched');
      var o := ParseFrom(argv, decls, help, scan, i', found', values', foundHelp || help[j], matched');
      RequiredKeptStep(decls, help, foundHelp, matched, j, o.code, o.found, o.matched);
    } else {
      ParseFromStop(argv, decls, help, scan, i, found, values, foundHelp, matched);
    }
  }

  /** An argument named twice in a row without a value in between: the
      second occurrence is reported as specified multiple times. */
  lemma RepeatedArgument(argv: seq<string>, decls: seq<Decl>, help: seq<bool>, scan: Scan, i: int,
                         found: seq<bool>, values: seq<Option<string>>, foundHelp: bool, matched: seq<int>)
    requires |found| == |decls| && |values| == |decls| && |help| == |decls| && 0 <= i && i + 1 < |argv|
    requires FirstArg(decls, argv[i], 0) >= 0 && FirstArg(decls, argv[i + 1], 0) == FirstArg(decls, argv[i], 0)
    requires decls[FirstArg(decls, argv[i], 0)].scanFormat.None?
    ensures var o := ParseFrom(argv, decls, help, scan, i, found, values, foundHelp, matched);
      o.code == PARSE_ARGS_REPEATED_ARGUMENT && o.detail == Some(if found[FirstArg(decls, argv[i], 0)] then argv[i] else argv[i + 1])
  {
    var j := FirstArg(decls, argv[i], 0);
    if !found[j] {
      assert ParseFrom(argv, decls, help, scan, i, found, values, foundHelp, matched)
          == ParseFrom(argv, decls, help, scan, i + 1, found[j := true], values, foundHelp || help[j], matched + [j]);
    }
  }

  /** A value-taking argument as the last entry of argv: its value is
      reported missing, unless it was already found. */
  lemma MissingValueAtEnd(argv: seq<string>, decls: seq<Decl>, help: seq<bool>, scan: Scan,
                          found: seq<bool>, values: seq<Option<string>>, foundHelp: bool, matched: seq<int>)
    requires |found| == |decls| && |values| == |decls| && |help| == |decls| && |argv| >= 1
    requires FirstArg(decls, argv[|argv| - 1], 0) >= 0
    requires decls[FirstArg(decls, argv[|argv| - 1], 0)].scanFormat.Some?
    ensures var o := ParseFrom(argv, decls, help, scan, |argv| - 1, found, values, foundHelp, matched);
      o.code == if found[FirstArg(decls, argv[|argv| - 1], 0)] then PARSE_ARGS_REPEATED_ARGUMENT else PARSE_ARGS_MISSING_VALUE
  {
  }

  /** An entry that names no argument stops the parse as unknown, with no
      detail. */
  lemma UnknownArgument(argv: seq<string>, decls: seq<Decl>, help: seq<bool>, scan: Scan, i: int,
                        found: seq<bool>, values: seq<Option<string>>, foundHelp: bool, matched: seq<int>)
    requires |found| == |decls| && |values| == |decls| && |help| == |decls| && 0 <= i < |argv|
    requires forall l | 0 <= l < |decls| :: !Names(decls[l].names, argv[i])
    ensures var o := ParseFrom(argv, decls, help, scan, i, found, values, foundHelp, matched);
      o.code == PARSE_ARGS_UNKNOWN_ARGUMENT && o.detail == None && o.found == found
  {
  }
}
