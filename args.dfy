/** The command line: the first word is the command, the rest are
    `--name value` options, where a flag followed by nothing, by an empty
    word or by another flag gets the empty value. */
module Args {
  import opened Values
  import opened Text

  /** The value the flag at position `i` takes: the next word, unless it is
      missing, empty or itself a flag. */
  function FlagValue(args: seq<string>, i: nat): string
  {
    if i + 1 < |args| && args[i + 1] != "" && !StartsWith(args[i + 1], "--") then args[i + 1] else ""
  }

  /** The options read from position `i` on, added to `acc`; a flag with a
      value moves on by two words, one without by one. */
  function Options(args: seq<string>, i: nat, acc: map<string, string>): map<string, string>
    decreases |args| - i
  {
    if i >= |args| then acc
    else
      var value := FlagValue(args, i);
      Options(args, if value == "" then i + 1 else i + 2, acc[StripDashes(args[i]) := value])
  }

  /** A key, once read, is never dropped by later options. */
  lemma {:induction false} OptionsKeepKeys(args: seq<string>, i: nat, acc: map<string, string>, k: string)
    requires k in acc
    ensures k in Options(args, i, acc)
    decreases |args| - i
  {
    if i < |args| {
      var value := FlagValue(args, i);
      OptionsKeepKeys(args, if value == "" then i + 1 else i + 2, acc[StripDashes(args[i]) := value], k);
    }
  }

  /** No option value is itself a flag. */
  lemma {:induction false} OptionValuesAreNotFlags(args: seq<string>, i: nat, acc: map<string, string>)
    requires forall k :: k in acc ==> !StartsWith(acc[k], "--")
    ensures forall k :: k in Options(args, i, acc) ==> !StartsWith(Options(args, i, acc)[k], "--")
    decreases |args| - i
  {
    if i < |args| {
      var value := FlagValue(args, i);
      assert !StartsWith(value, "--");
      OptionValuesAreNotFlags(args, if value == "" then i + 1 else i + 2, acc[StripDashes(args[i]) := value]);
    }
  }

  /** Every flag from position `i` on is read as a key: a flag is never
      swallowed as the value of the flag before it. */
  lemma {:induction false} FlagsBecomeKeys(args: seq<string>, i: nat, acc: map<string, string>, j: nat)
    requires i <= j < |args| && StartsWith(args[j], "--")
    ensures args[j][2..] in Options(args, i, acc)
    decreases |args| - i
  {
    var value := FlagValue(args, i);
    var next := if value == "" then i + 1 else i + 2;
    var acc' := acc[StripDashes(args[i]) := value];
    if j == i {
      OptionsKeepKeys(args, next, acc', args[j][2..]);
    } else {
      assert j != i + 1 || value == "";
      FlagsBecomeKeys(args, next, acc', j);
    }
  }

  /** `parseArgs`: the command and the options, stepping through the words
      with `i += 2`, stepping back one when a flag has no value. */
  method ParseArgs(args: seq<string>) returns (command: Option<string>, options: map<string, string>)
    ensures command == if args == [] then None else Some(args[0])
    ensures options == Options(args, 1, map[])
    ensures forall k :: k in options ==> !StartsWith(options[k], "--")
    ensures forall j :: 1 <= j < |args| && StartsWith(args[j], "--") ==> args[j][2..] in options
  {
    command := if args == [] then None else Some(args[0]);
    options := map[];
    var i := 1;
    while i < |args|
      invariant 1 <= i <= |args| + 1
      invariant Options(args, i, options) == Options(args, 1, map[])
      decreases |args| - i
    {
      var key := StripDashes(args[i]);
      var value := if i + 1 < |args| && args[i + 1] != "" && !StartsWith(args[i + 1], "--") then args[i + 1] else "";
      options := options[key := value];
      if value == "" {
        i := i - 1;
      }
      i := i + 2;
    }
    OptionValuesAreNotFlags(args, 1, map[]);
    forall j | 1 <= j < |args| && StartsWith(args[j], "--") ensures args[j][2..] in options {
      FlagsBecomeKeys(args, 1, map[], j);
    }
  }
}
