/**
 * get_user_choice and get_multiple_user_choices: the typed lines are an
 * input sequence (one line per `input()`; running out of lines stands for
 * end of input, where the program would stop with EOFError), the config
 * and the reuse flags live in a Session.
 */
module UserChoice {
  import opened Wrappers
  import opened Text
  import opened ConfigHandler

  // get_user_choice

  /** The first line that reads as an integer in 1..n, as the 0-based index; None when the lines run out first. */
  function FirstValidChoice(lines: seq<string>, n: nat): Option<nat>
  {
    if lines == [] then None
    else
      var parsed := PyInt(lines[0]);
      if InRange(parsed, n) then Some((parsed.value - 1) as nat)
      else FirstValidChoice(lines[1..], n)
  }

  /** get_user_choice: re-asks until a number in range is typed, and returns it minus one. */
  method GetUserChoice(options: seq<string>, lines: seq<string>) returns (r: Option<nat>)
    ensures r == FirstValidChoice(lines, |options|)
  {
    var n := |options|;
    var choice := -1;
    var i := 0;
    while choice < 1 || choice > n
      invariant 0 <= i <= |lines|
      invariant choice < 1 || choice > n ==> FirstValidChoice(lines, n) == FirstValidChoice(lines[i..], n)
      invariant 1 <= choice <= n ==> FirstValidChoice(lines, n) == Some((choice - 1) as nat)
      decreases |lines| - i
    {
      if i == |lines| {
        return None;
      }
      var parsed := PyInt(lines[i]);
      assert lines[i..][1..] == lines[i + 1..];
      if parsed.Some? {
        choice := parsed.value;
      }
      i := i + 1;
    }
    return Some((choice - 1) as nat);
  }

  /**
   * The returned index is a valid 0-based position, read from line k; the
   * lines before k give no answer, so by FirstValidChoiceNone none of them
   * holds a number in 1..n.
   */
  lemma {:induction false} FirstValidChoiceLine(lines: seq<string>, n: nat) returns (k: nat)
    requires FirstValidChoice(lines, n).Some?
    ensures k < |lines| && FirstValidChoice(lines, n).value < n
    ensures PyInt(lines[k]) == Some(FirstValidChoice(lines, n).value + 1)
    ensures FirstValidChoice(lines[..k], n).None?
  {
    var parsed := PyInt(lines[0]);
    if InRange(parsed, n) {
      k := 0;
    } else {
      var tail := lines[1..];
      var j := FirstValidChoiceLine(tail, n);
      k := j + 1;
      assert tail[j] == lines[k];
      var prefix := lines[..k];
      assert prefix[0] == lines[0] && prefix[1..] == tail[..j];
      assert FirstValidChoice(prefix, n) == FirstValidChoice(tail[..j], n);
    }
  }

  /** There is no answer exactly when no line holds a number in 1..n (with no options, never). */
  lemma {:induction false} FirstValidChoiceNone(lines: seq<string>, n: nat)
    ensures FirstValidChoice(lines, n).None? <==> forall k :: 0 <= k < |lines| ==> !InRange(PyInt(lines[k]), n)
  {
    if lines != [] {
      var tail := lines[1..];
      FirstValidChoiceNone(tail, n);
      if !InRange(PyInt(lines[0]), n) {
        forall k | 0 < k < |lines| ensures lines[k] == tail[k - 1] { }
      }
    }
  }

  /** The typed number is an option's 1-based position. */
  predicate InRange(parsed: Option<int>, n: nat)
  {
    parsed.Some? && 1 <= parsed.value <= n
  }

  // The parser of get_multiple_user_choices

  /**
   * One comma-separated part, stripped: a range `a-b` of two integers (in
   * either order), or a string of digits; None for anything else (the part
   * is skipped).
   */
  function PartIndices(part: string): Option<set<int>>
  {
    var p := Strip(part);
    if '-' in p then
      var pieces := Split(p, '-');
      if |pieces| == 2 && PyInt(pieces[0]).Some? && PyInt(pieces[1]).Some? then
        var start := PyInt(pieces[0]).value;
        var end := PyInt(pieces[1]).value;
        var lo := if start > end then end else start;
        var hi := if start > end then start else end;
        Some(Range(lo, hi))
      else None
    else if IsDigits(p) then Some({DigitsValue(p)})
    else None
  }

  /** `set(range(lo, hi + 1))` */
  function Range(lo: int, hi: int): (r: set<int>)
    ensures forall i :: i in r <==> lo <= i <= hi
    decreases hi - lo
  {
    if lo > hi then {} else Range(lo, hi - 1) + {hi}
  }

  /** The indices and the skipped parts after the given parts. */
  datatype Parsed = Parsed(selected: set<int>, skipped: seq<string>)

  function ParseParts(parts: seq<string>): Parsed
  {
    if parts == [] then Parsed({}, [])
    else
      var before := ParseParts(parts[..|parts| - 1]);
      var part := parts[|parts| - 1];
      match PartIndices(part)
      case Some(indices) => Parsed(before.selected + indices, before.skipped)
      case None => Parsed(before.selected, before.skipped + [Strip(part)])
  }

  /** The loop over the parts of one line. */
  method ReadParts(parts: seq<string>) returns (selected: set<int>, skipped: seq<string>)
    ensures Parsed(selected, skipped) == ParseParts(parts)
  {
    selected := {};
    skipped := [];
    var i := 0;
    while i < |parts|
      invariant 0 <= i <= |parts|
      invariant Parsed(selected, skipped) == ParseParts(parts[..i])
    {
      var part := Strip(parts[i]);
      assert parts[..i + 1][..i] == parts[..i];
      var indices := PartIndices(parts[i]);
      if indices.Some? {
        selected := selected + indices.value;
      } else {
        skipped := skipped + [part];
      }
      i := i + 1;
    }
    assert parts[..i] == parts;
  }

  /** The 1-based positions 1..n that are selected, ascending: `sorted(valid)`. */
  function Positions(selected: set<int>, n: nat): seq<int>
  {
    if n == 0 then [] else Positions(selected, n - 1) + (if n in selected then [n] else [])
  }

  /** `[options[i - 1] for i in sorted(valid)]` */
  function Picks(options: seq<string>, selected: set<int>): (r: seq<string>)
  {
    var positions := Positions(selected, |options|);
    PositionsSpec(selected, |options|);
    seq(|positions|, j requires 0 <= j < |positions| => options[positions[j] - 1])
  }

  /** What a typed line ends the loop with, if it does: all options, or the picks of its valid indices. */
  function Interpret(line: string, options: seq<string>): Option<seq<string>>
  {
    var input := Lower(Strip(line));
    if input == "all" || input == "everything" then Some(options)
    else
      var parsed := ParseParts(Split(input, ','));
      var valid := set i | i in parsed.selected && 1 <= i <= |options|;
      if valid != {} then Some(Picks(options, valid)) else None
  }

  function FirstAnswer(lines: seq<string>, options: seq<string>): Option<seq<string>>
  {
    if lines == [] then None
    else if Interpret(lines[0], options).Some? then Interpret(lines[0], options)
    else FirstAnswer(lines[1..], options)
  }

  /** `key_name or f"choice_{md5(...)}"`; the digest is a parameter. */
  function ConfigKey(scopeKey: string, prompt: string, keyName: Option<string>, digest: string -> string): string
  {
    match keyName
    case Some(k) => if k != "" then k else "choice_" + digest(scopeKey + "::" + prompt)
    case None => "choice_" + digest(scopeKey + "::" + prompt)
  }

  /** The result of a call, the reuse flags after it, and the config it saves, if any. */
  datatype Outcome = Outcome(result: Option<Value>, flags: map<string, bool>, saved: Option<Config>)

  /** The prompt loop: the first line that selects something is stored under the key and returned. */
  function Prompted(config: Config, flags: map<string, bool>, scopeKey: string, configKey: string,
                    options: seq<string>, lines: seq<string>): Outcome
  {
    match FirstAnswer(lines, options)
    case None => Outcome(None, flags, None)
    case Some(result) => Outcome(Some(List(result)), flags, Some(Store(config, scopeKey, configKey, List(result))))
  }

  /** get_multiple_user_choices on a loaded config and the current flags. */
  function MultipleChoices(config: Config, flags: map<string, bool>, scopeKey: string, configKey: string,
                           options: seq<string>, lines: seq<string>): Outcome
  {
    var scope := ScopeOf(config, scopeKey);
    if configKey !in scope then Prompted(config, flags, scopeKey, configKey, options, lines)
    else if scopeKey in flags then
      if flags[scopeKey] then Outcome(Some(scope[configKey]), flags, None)
      else Prompted(config, flags, scopeKey, configKey, options, lines)
    else if lines == [] then Outcome(None, flags, None)
    else
      var flag := Lower(Strip(lines[0])) == "y";
      if flag then Outcome(Some(scope[configKey]), flags[scopeKey := flag], None)
      else Prompted(config, flags[scopeKey := flag], scopeKey, configKey, options, lines[1..])
  }

  /** The `while True` loop of get_multiple_user_choices up to its first selection. */
  method AskChoices(options: seq<string>, lines: seq<string>) returns (answer: Option<seq<string>>)
    ensures answer == FirstAnswer(lines, options)
  {
    var i := 0;
    while true
      invariant 0 <= i <= |lines|
      invariant FirstAnswer(lines, options) == FirstAnswer(lines[i..], options)
      decreases |lines| - i
    {
      if i == |lines| {
        return None;
      }
      assert lines[i..][1..] == lines[i + 1..];
      answer := AskOnce(options, lines[i]);
      if answer.Some? {
        return;
      }
      i := i + 1;
    }
  }

  /** One pass of the prompt loop: the typed line read as a selection, if it is one. */
  method AskOnce(options: seq<string>, line: string) returns (answer: Option<seq<string>>)
    ensures answer == Interpret(line, options)
  {
    var inputStr := Lower(Strip(line));
    if inputStr == "all" || inputStr == "everything" {
      return Some(options);
    }
    var selectedIndices, skippedEntries := ReadParts(Split(inputStr, ','));
    var valid := set k | k in selectedIndices && 1 <= k <= |options|;
    if valid != {} {
      return Some(Picks(options, valid));
    }
    return None;
  }

  /** get_multiple_user_choices. None: the lines ran out before the call returned. */
  method GetMultipleUserChoices(session: Session, prompt: string, options: seq<string>, projectKey: Option<string>,
                                keyName: Option<string>, digest: string -> string, lines: seq<string>)
    returns (r: Option<Value>)
    modifies session
    ensures var o := MultipleChoices(Load(old(session.file)), old(session.reuseFlags), ScopeKey(projectKey),
                                     ConfigKey(ScopeKey(projectKey), prompt, keyName, digest), options, lines);
      && r == o.result
      && session.reuseFlags == o.flags
      && session.file == match o.saved case None => old(session.file) case Some(c) => Json(c)
  {
    var config := Load(session.file);
    var scopeKey := ScopeKey(projectKey);
    var scope := ScopeOf(config, scopeKey);
    var configKey := ConfigKey(scopeKey, prompt, keyName, digest);
    var i := 0;
    if configKey in scope {
      var savedChoices := scope[configKey];
      var known := scopeKey in session.reuseFlags;
      var reuseFlag := if known then session.reuseFlags[scopeKey] else false;
      if !known {
        if i == |lines| {
          return None;
        }
        var reuse := Lower(Strip(lines[i]));
        i := i + 1;
        reuseFlag := reuse == "y";
        session.reuseFlags := session.reuseFlags[scopeKey := reuseFlag];
      }
      if reuseFlag {
        return Some(savedChoices);
      }
    }
    assert MultipleChoices(config, old(session.reuseFlags), scopeKey, configKey, options, lines)
      == Prompted(config, session.reuseFlags, scopeKey, configKey, options, lines[i..]);
    var answer := AskChoices(options, lines[i..]);
    if answer.None? {
      return None;
    }
    scope := scope[configKey := List(answer.value)];
    config := config[scopeKey := scope];
    session.Save(config);
    return Some(List(answer.value));
  }

  // Properties

  /** The positions are strictly ascending and are exactly the selected numbers in 1..n. */
  lemma {:induction false} PositionsSpec(selected: set<int>, n: nat)
    ensures forall i, j :: 0 <= i < j < |Positions(selected, n)| ==> Positions(selected, n)[i] < Positions(selected, n)[j]
    ensures forall k :: k in Positions(selected, n) <==> k in selected && 1 <= k <= n
    ensures forall j :: 0 <= j < |Positions(selected, n)| ==> 1 <= Positions(selected, n)[j] <= n && Positions(selected, n)[j] in selected
    ensures |Positions(selected, n)| <= n
  {
    if n > 0 {
      PositionsSpec(selected, n - 1);
      var init := Positions(selected, n - 1);
      var last: seq<int> := if n in selected then [n] else [];
      assert Positions(selected, n) == init + last;
      forall k ensures k in init + last <==> k in init || k in last {
      }
      forall j | 0 <= j < |init + last| ensures 1 <= (init + last)[j] <= n && (init + last)[j] in selected {
        assert (init + last)[j] in init + last;
      }
      forall i, j | 0 <= i < j < |init + last| ensures (init + last)[i] < (init + last)[j] {
        if j >= |init| {
          assert init[i] in init;
        }
      }
    }
  }

  /**
   * The picks are the options at the selected in-range positions, in
   * ascending position order, each position once: a subsequence of the
   * options. Out-of-range numbers pick nothing.
   */
  lemma PicksSpec(options: seq<string>, selected: set<int>)
    ensures var positions := Positions(selected, |options|);
      && |Picks(options, selected)| == |positions|
      && (forall j :: 0 <= j < |positions| ==> 1 <= positions[j] <= |options| && Picks(options, selected)[j] == options[positions[j] - 1])
      && (forall i, j :: 0 <= i < j < |positions| ==> positions[i] < positions[j])
      && (forall k :: k in positions <==> k in selected && 1 <= k <= |options|)
  {
    PositionsSpec(selected, |options|);
  }

  /** Selecting every position gives back all the options, in order. */
  lemma {:induction false} PicksAll(options: seq<string>, selected: set<int>)
    requires forall k :: 1 <= k <= |options| ==> k in selected
    ensures Picks(options, selected) == options
  {
    PositionsAll(selected, |options|);
  }

  lemma {:induction false} PositionsAll(selected: set<int>, n: nat)
    requires forall k :: 1 <= k <= n ==> k in selected
    ensures Positions(selected, n) == seq(n, j requires 0 <= j < n => j + 1)
  {
    if n > 0 {
      PositionsAll(selected, n - 1);
      assert Positions(selected, n) == seq(n - 1, j requires 0 <= j < n - 1 => j + 1) + [n];
    }
  }

  /** The part selects the number i. */
  predicate Selects(part: string, i: int)
  {
    PartIndices(part).Some? && i in PartIndices(part).value
  }

  /** The part is skipped, and reported as s. */
  predicate Skips(part: string, s: string)
  {
    PartIndices(part).None? && s == Strip(part)
  }

  /** The parser never aborts: a number is selected exactly when some part selects it. */
  lemma {:induction false} ParsePartsSelected(parts: seq<string>)
    ensures forall i :: i in ParseParts(parts).selected <==> exists k :: 0 <= k < |parts| && Selects(parts[k], i)
  {
    if parts != [] {
      var init := parts[..|parts| - 1];
      var last := parts[|parts| - 1];
      ParsePartsSelected(init);
      assert init + [last] == parts;
      var extra := if PartIndices(last).Some? then PartIndices(last).value else {};
      assert ParseParts(parts).selected == ParseParts(init).selected + extra;
      forall i ensures i in ParseParts(parts).selected <==> exists k :: 0 <= k < |parts| && Selects(parts[k], i) {
        if i in ParseParts(parts).selected {
          if i in ParseParts(init).selected {
            var k :| 0 <= k < |init| && Selects(init[k], i);
            assert parts[k] == init[k];
          } else {
            assert Selects(parts[|parts| - 1], i);
          }
        }
        if exists k :: 0 <= k < |parts| && Selects(parts[k], i) {
          var k :| 0 <= k < |parts| && Selects(parts[k], i);
          if k < |init| {
            assert init[k] == parts[k];
          }
        }
      }
    }
  }

  /** The parts that select nothing are exactly the skipped ones, stripped. */
  lemma ParsePartsSkipped(parts: seq<string>)
    ensures forall s :: s in ParseParts(parts).skipped <==> exists k :: 0 <= k < |parts| && Skips(parts[k], s)
  {
    forall s ensures s in ParseParts(parts).skipped <==> exists k :: 0 <= k < |parts| && Skips(parts[k], s) {
      if s in ParseParts(parts).skipped {
        SkippedFrom(parts, s);
      }
      if exists k :: 0 <= k < |parts| && Skips(parts[k], s) {
        var k :| 0 <= k < |parts| && Skips(parts[k], s);
        SkippedTo(parts, k);
      }
    }
  }

  lemma {:induction false} SkippedFrom(parts: seq<string>, s: string)
    requires s in ParseParts(parts).skipped
    ensures exists k :: 0 <= k < |parts| && Skips(parts[k], s)
  {
    var init := parts[..|parts| - 1];
    var last := parts[|parts| - 1];
    var extra := if PartIndices(last).Some? then [] else [Strip(last)];
    assert ParseParts(parts).skipped == ParseParts(init).skipped + extra;
    if s in ParseParts(init).skipped {
      SkippedFrom(init, s);
      var k :| 0 <= k < |init| && Skips(init[k], s);
      assert parts[k] == init[k];
    } else {
      assert s in extra;
      assert Skips(parts[|parts| - 1], s);
    }
  }

  lemma {:induction false} SkippedTo(parts: seq<string>, k: int)
    requires 0 <= k < |parts| && PartIndices(parts[k]).None?
    ensures Strip(parts[k]) in ParseParts(parts).skipped
  {
    var init := parts[..|parts| - 1];
    var last := parts[|parts| - 1];
    var extra := if PartIndices(last).Some? then [] else [Strip(last)];
    assert ParseParts(parts).skipped == ParseParts(init).skipped + extra;
    if k < |init| {
      assert init[k] == parts[k];
      SkippedTo(init, k);
    } else {
      assert Strip(parts[k]) in extra;
    }
  }

  /** A range of two numbers selects every integer between them, whichever comes first. */
  lemma RangePart(a: nat, b: nat)
    ensures PartIndices(Show(a) + "-" + Show(b)) == Some(if a < b then Range(a, b) else Range(b, a))
  {
    var s := Show(a) + "-" + Show(b);
    assert s[0] == Show(a)[0] && s[|s| - 1] == Show(b)[|Show(b)| - 1];
    StripNoSpace(s);
    assert s == Show(a) + ['-'] + Show(b);
    assert '-' !in Show(a) && '-' !in Show(b);
    SplitAround(Show(a), '-', Show(b));
    PyIntShow(a);
    PyIntShow(b);
  }

  /** A part that is a number selects it. */
  lemma NumberPart(n: nat)
    ensures PartIndices(Show(n)) == Some({n})
  {
    var s := Show(n);
    StripNoSpace(s);
    assert '-' !in s;
    DigitsValueShow(n);
  }

  /** Three pieces are skipped rather than read. */
  lemma ThreePiecesPart()
    ensures PartIndices("1-2-3") == None
  {
    StripNoSpace("1-2-3");
    SplitNoneThree();
  }

  /** A leading minus sign leaves an empty first endpoint, so the part is skipped. */
  lemma SignedPart()
    ensures PartIndices("-3") == None
  {
    StripNoSpace("-3");
    assert "-3" == "" + ['-'] + "3";
    SplitAround("", '-', "3");
    assert Strip("") == "";
  }

  /** A word is skipped. */
  lemma WordPart()
    ensures PartIndices("x") == None
  {
    StripNoSpace("x");
  }

  lemma SplitNoneThree()
    ensures |Split("1-2-3", '-')| == 3
  {
    SplitJoin("1-2-3", '-');
    assert "1-2-3"[1..] == "-2-3";
    assert "-2-3"[1..] == "2-3";
    assert "2-3"[1..] == "-3";
    assert "-3"[1..] == "3";
    assert "3"[1..] == "";
  }

  /** `all` and `everything` return every option, in order. */
  lemma AllKeyword(line: string, options: seq<string>)
    requires Lower(Strip(line)) == "all" || Lower(Strip(line)) == "everything"
    ensures Interpret(line, options) == Some(options)
  {
  }

  /** A line that ends the loop selects a subsequence of the options through strictly ascending positions. */
  lemma InterpretSpec(line: string, options: seq<string>)
    ensures Interpret(line, options).Some? ==> exists selected :: Interpret(line, options) == Some(Picks(options, selected))
  {
    if Interpret(line, options) == Some(options) {
      var all := Range(1, |options|);
      PicksAll(options, all);
    }
  }

  lemma {:induction false} FirstAnswerSpec(lines: seq<string>, options: seq<string>)
    ensures FirstAnswer(lines, options).None? <==> forall k :: 0 <= k < |lines| ==> Interpret(lines[k], options).None?
    ensures FirstAnswer(lines, options).Some? ==> exists k :: 0 <= k < |lines| && FirstAnswer(lines, options) == Interpret(lines[k], options)
  {
    if lines != [] {
      FirstAnswerSpec(lines[1..], options);
      assert forall k :: 0 <= k < |lines[1..]| ==> lines[1..][k] == lines[k + 1];
      assert forall k :: 0 <= k < |lines| ==> k == 0 || lines[k] == lines[1..][k - 1];
    }
  }

  /** The answer is read from line k, and the lines before k select nothing. */
  lemma {:induction false} FirstAnswerLine(lines: seq<string>, options: seq<string>) returns (k: nat)
    requires FirstAnswer(lines, options).Some?
    ensures k < |lines| && FirstAnswer(lines, options) == Interpret(lines[k], options)
    ensures FirstAnswer(lines[..k], options).None?
  {
    if Interpret(lines[0], options).Some? {
      k := 0;
    } else {
      var tail := lines[1..];
      var j := FirstAnswerLine(tail, options);
      k := j + 1;
      assert tail[j] == lines[k];
      assert lines[..k][0] == lines[0] && lines[..k][1..] == tail[..j];
    }
  }

  /**
   * The state rules of a call. Once the scope has a flag, no question is
   * asked and the flag stays; a true flag returns the saved value and
   * writes nothing. A call that writes has returned a selection and
   * stores exactly that selection under the config key; a call with no
   * selecting line writes nothing.
   */
  lemma MultipleChoicesSpec(config: Config, flags: map<string, bool>, scopeKey: string, configKey: string,
                            options: seq<string>, lines: seq<string>)
    ensures var o := MultipleChoices(config, flags, scopeKey, configKey, options, lines);
      && (scopeKey in flags ==> o.flags == flags)
      && (forall s :: s != scopeKey ==> (s in o.flags <==> s in flags) && (s in flags ==> o.flags[s] == flags[s]))
      && (configKey in ScopeOf(config, scopeKey) && scopeKey in flags && flags[scopeKey] ==>
            o == Outcome(Some(ScopeOf(config, scopeKey)[configKey]), flags, None))
      && (o.saved.Some? ==>
            && o.result.Some? && o.result.value.List?
            && o.saved.value == Store(config, scopeKey, configKey, o.result.value)
            && exists selected :: o.result.value.items == Picks(options, selected))
      && ((forall k :: 0 <= k < |lines| ==> Interpret(lines[k], options).None?) ==> o.saved == None)
      && (configKey in ScopeOf(config, scopeKey) && scopeKey !in flags && lines != [] ==>
            scopeKey in o.flags && o.flags[scopeKey] == (Lower(Strip(lines[0])) == "y"))
      && (scopeKey in flags && !flags[scopeKey] ==>
            o.result == (match FirstAnswer(lines, options) case None => None case Some(r) => Some(List(r))))
  {
    FirstAnswerSpec(lines, options);
    if |lines| > 0 {
      FirstAnswerSpec(lines[1..], options);
      assert forall k :: 0 <= k < |lines[1..]| ==> lines[1..][k] == lines[k + 1];
    }
    var o := MultipleChoices(config, flags, scopeKey, configKey, options, lines);
    if o.saved.Some? {
      var rest := if configKey in ScopeOf(config, scopeKey) && scopeKey !in flags then lines[1..] else lines;
      assert o.result == Some(List(FirstAnswer(rest, options).value));
      FirstAnswerSpec(rest, options);
      var k :| 0 <= k < |rest| && FirstAnswer(rest, options) == Interpret(rest[k], options);
      InterpretSpec(rest[k], options);
    }
  }
}
