/**
 Command coverage: what the suite's commands require, what a posture allows, and the two tests that
 refuse a run for the difference.
 */
module Coverage {
  import opened Prelude
  import opened CommandReading

  datatype Command = Command(text: string, reading: Reading)

  datatype Missing = Missing(program: string, commands: seq<string>)

  datatype Verdict = RunRefused | Partial | Direct | NotApplicable

  datatype Comparison = Comparison(commands: seq<Command>, allowed: seq<string>, missing: seq<Missing>, verdict: Verdict)

  function Read(commands: seq<string>): (r: seq<Command>)
    ensures |r| == |commands| && forall i :: 0 <= i < |r| ==> r[i] == Command(commands[i], ReadingOf(commands[i]))
  {
    seq(|commands|, i requires 0 <= i < |commands| => Command(commands[i], ReadingOf(commands[i])))
  }

  predicate Lacks(allowed: seq<string>, c: Command) {
    c.reading.Program? && c.reading.program !in allowed
  }

  // ---- The missing programs ----

  function PlaceOf(missing: seq<Missing>, program: string): (i: nat)
    ensures i <= |missing|
    ensures i < |missing| ==> missing[i].program == program
    ensures forall j :: 0 <= j < i ==> missing[j].program != program
  {
    FirstWhere((m: Missing) => m.program == program, missing)
  }

  function Note(missing: seq<Missing>, program: string, command: string): seq<Missing> {
    var i := PlaceOf(missing, program);
    if i < |missing| then missing[i := Missing(program, missing[i].commands + [command])]
    else missing + [Missing(program, [command])]
  }

  function Grouped(allowed: seq<string>, commands: seq<Command>): seq<Missing> {
    if |commands| == 0 then []
    else
      var before := Grouped(allowed, commands[..|commands| - 1]);
      if Lacks(allowed, Last(commands)) then Note(before, Last(commands).reading.program, Last(commands).text)
      else before
  }

  method Compare(commands: seq<string>, allowed: seq<string>) returns (c: Comparison)
    ensures c.commands == Read(commands) && c.allowed == allowed && c.missing == Grouped(allowed, Read(commands))
    ensures c.verdict == VerdictOf(c.missing, c.commands) && Made(c)
  {
    hide ReadingOf;
    var read: seq<Command> := [];
    for k := 0 to |commands|
      invariant read == Read(commands)[..k]
    {
      var reading := Classify(commands[k]);
      read := read + [Command(commands[k], reading)];
    }
    assert read == Read(commands);
    var missing: seq<Missing> := [];
    for k := 0 to |read|
      invariant missing == Grouped(allowed, read[..k])
    {
      assert read[..k + 1][..k] == read[..k];
      if read[k].reading.Program? {
        var program := read[k].reading.program;
        if program in allowed {
          continue;
        }
        var i := PlaceOf(missing, program);
        if i < |missing| {
          missing := missing[i := Missing(program, missing[i].commands + [read[k].text])];
        } else {
          missing := missing + [Missing(program, [read[k].text])];
        }
      }
    }
    assert read[..|read|] == read;
    c := Comparison(read, allowed, missing, VerdictOf(missing, read));
  }

  function VerdictOf(missing: seq<Missing>, commands: seq<Command>): Verdict {
    if missing != [] then RunRefused
    else if exists i :: 0 <= i < |commands| && commands[i].reading == Unparsed then Partial
    else Direct
  }

  // ---- What grouping means ----

  function AddOnce(seen: seq<string>, x: string): seq<string> {
    if x in seen then seen else seen + [x]
  }

  /** The lacking programs, each once, in the order the suite first names them. */
  function FirstSeen(allowed: seq<string>, commands: seq<Command>): seq<string> {
    if |commands| == 0 then []
    else
      var before := FirstSeen(allowed, commands[..|commands| - 1]);
      if Lacks(allowed, Last(commands)) then AddOnce(before, Last(commands).reading.program) else before
  }

  /** The commands whose program is `program`, in their order. */
  function Naming(commands: seq<Command>, program: string): seq<string> {
    if |commands| == 0 then []
    else
      Naming(commands[..|commands| - 1], program)
      + (if Last(commands).reading == Program(program) then [Last(commands).text] else [])
  }

  function Programs(missing: seq<Missing>): (r: seq<string>)
    ensures |r| == |missing| && forall i :: 0 <= i < |r| ==> r[i] == missing[i].program
  {
    seq(|missing|, i requires 0 <= i < |missing| => missing[i].program)
  }

  predicate DistinctNames(s: seq<string>) {
    forall i, j :: 0 <= i < j < |s| ==> s[i] != s[j]
  }

  lemma {:induction false} FirstSeenAre(allowed: seq<string>, commands: seq<Command>, x: string)
    ensures DistinctNames(FirstSeen(allowed, commands))
    ensures x in FirstSeen(allowed, commands) <==>
              exists i :: 0 <= i < |commands| && commands[i].reading == Program(x) && x !in allowed
  {
    if |commands| > 0 {
      var front, last := commands[..|commands| - 1], Last(commands);
      FirstSeenAre(allowed, front, x);
      assert forall i :: 0 <= i < |front| ==> commands[i] == front[i];
      assert last == commands[|commands| - 1];
    }
  }

  lemma NotePrograms(missing: seq<Missing>, program: string, command: string)
    ensures Programs(Note(missing, program, command)) == AddOnce(Programs(missing), program)
  {
    var i := PlaceOf(missing, program);
    if i < |missing| {
      assert Programs(missing)[i] == program;
      assert Programs(Note(missing, program, command)) == Programs(missing);
    } else {
      assert program !in Programs(missing);
      assert Programs(Note(missing, program, command)) == Programs(missing) + [program];
    }
  }

  /** The missing programs are the lacking ones, each once and in first-seen order. */
  lemma {:induction false} GroupedPrograms(allowed: seq<string>, commands: seq<Command>)
    ensures Programs(Grouped(allowed, commands)) == FirstSeen(allowed, commands)
  {
    hide Note, AddOnce;
    if |commands| > 0 {
      var front, last := commands[..|commands| - 1], Last(commands);
      GroupedPrograms(allowed, front);
      if Lacks(allowed, last) {
        NotePrograms(Grouped(allowed, front), last.reading.program, last.text);
      }
    }
  }

  ghost predicate NamesAll(m: Missing, commands: seq<Command>) {
    m.commands == Naming(commands, m.program)
  }

  lemma {:induction false} NamingNone(commands: seq<Command>, program: string)
    requires forall i :: 0 <= i < |commands| ==> commands[i].reading != Program(program)
    ensures Naming(commands, program) == []
  {
    if |commands| > 0 {
      NamingNone(commands[..|commands| - 1], program);
    }
  }

  lemma FreshProgramIsUnnamed(allowed: seq<string>, commands: seq<Command>, program: string)
    requires program !in allowed && program !in Programs(Grouped(allowed, commands))
    ensures Naming(commands, program) == []
  {
    hide Grouped, Programs, FirstSeen, Naming;
    GroupedPrograms(allowed, commands);
    FirstSeenAre(allowed, commands, program);
    NamingNone(commands, program);
  }

  lemma NamingGrows(commands: seq<Command>, program: string)
    requires |commands| > 0
    ensures Naming(commands, program) ==
              Naming(commands[..|commands| - 1], program)
              + (if Last(commands).reading == Program(program) then [Last(commands).text] else [])
  {
  }

  /** Each missing program lists exactly the commands whose program it is, in their order. */
  lemma {:induction false} GroupedCommands(allowed: seq<string>, commands: seq<Command>, k: nat)
    requires k < |Grouped(allowed, commands)|
    ensures NamesAll(Grouped(allowed, commands)[k], commands)
    decreases |commands|
  {
    hide Naming, FirstSeen, Programs;
    var front, last := commands[..|commands| - 1], Last(commands);
    var before, after := Grouped(allowed, front), Grouped(allowed, commands);
    GroupedPrograms(allowed, front);
    NamingGrows(commands, after[k].program);
    if k < |before| {
      GroupedCommands(allowed, front, k);
    }
    if Lacks(allowed, last) {
      var program := last.reading.program;
      FirstSeenAre(allowed, front, program);
      if k < |before| {
        OneEntry(allowed, front, k, program);
      } else {
        FreshProgramIsUnnamed(allowed, front, program);
      }
    } else {
      MissingAreNotAllowed(allowed, front, k);
    }
  }

  lemma OneEntry(allowed: seq<string>, commands: seq<Command>, k: nat, program: string)
    requires k < |Grouped(allowed, commands)|
    ensures Grouped(allowed, commands)[k].program == program <==> k == PlaceOf(Grouped(allowed, commands), program)
  {
    hide Grouped, FirstSeen;
    var missing := Grouped(allowed, commands);
    GroupedPrograms(allowed, commands);
    FirstSeenAre(allowed, commands, program);
    assert Programs(missing)[k] == missing[k].program;
    var i := PlaceOf(missing, program);
    if i < |missing| {
      assert Programs(missing)[i] == program;
    }
  }

  lemma MissingAreNotAllowed(allowed: seq<string>, commands: seq<Command>, k: nat)
    requires k < |Grouped(allowed, commands)|
    ensures Grouped(allowed, commands)[k].program !in allowed
  {
    hide Grouped, FirstSeen;
    var missing := Grouped(allowed, commands);
    GroupedPrograms(allowed, commands);
    FirstSeenAre(allowed, commands, missing[k].program);
    assert Programs(missing)[k] in Programs(missing);
  }

  // ---- The environment ----

  /** The programs the parsed commands require, each once, in first-seen order. */
  function Required(commands: seq<Command>): seq<string> {
    FirstSeen([], commands)
  }

  method RequiredPrograms(commands: seq<Command>) returns (out: seq<string>)
    ensures out == Required(commands)
  {
    out := [];
    for k := 0 to |commands|
      invariant out == Required(commands[..k])
    {
      assert commands[..k + 1][..k] == commands[..k];
      if commands[k].reading.Program? && commands[k].reading.program !in out {
        out := out + [commands[k].reading.program];
      }
    }
    assert commands[..|commands|] == commands;
  }

  datatype EnvironmentState = Applied | Degraded | EnvironmentRefused

  datatype ChildEnvironment = ChildEnvironment(variables: map<string, string>, commands: seq<string>, state: EnvironmentState)

  function UpperChar(c: char): char {
    if 'a' <= c <= 'z' then (c as int - 32) as char else c
  }

  function Upper(name: string): (r: string)
    ensures |r| == |name| && forall i :: 0 <= i < |r| ==> r[i] == UpperChar(name[i])
  {
    seq(|name|, i requires 0 <= i < |name| => UpperChar(name[i]))
  }

  const WITHHELD_PREFIXES := [
    "GITHUB_TOKEN", "GH_TOKEN", "CARGO_REGISTRY_TOKEN", "NPM_TOKEN", "AWS_SECRET", "STATECRAFT_APPROVAL"]

  /** A name equal to a withheld one in any letter case, or starting with one in upper case. */
  predicate Withheld(name: string) {
    exists k :: 0 <= k < |WITHHELD_PREFIXES| &&
      (Upper(name) == Upper(WITHHELD_PREFIXES[k]) || WITHHELD_PREFIXES[k] <= Upper(name))
  }

  /** The last value given for each name that is not withheld. */
  function VariablesOf(given: seq<(string, string)>): map<string, string> {
    if |given| == 0 then map[]
    else
      var before := VariablesOf(given[..|given| - 1]);
      if Withheld(Last(given).0) then before else before[Last(given).0 := Last(given).1]
  }

  predicate SomeWithheld(given: seq<(string, string)>) {
    exists i :: 0 <= i < |given| && Withheld(given[i].0)
  }

  predicate AllAllowed(required: seq<string>, allowed: seq<string>) {
    forall i :: 0 <= i < |required| ==> required[i] in allowed
  }

  method Construct(given: seq<(string, string)>, allowed: seq<string>, required: seq<string>)
    returns (e: ChildEnvironment)
    ensures e.variables == VariablesOf(given) && e.commands == allowed
    ensures e.state.EnvironmentRefused? <==> !AllAllowed(required, allowed)
    ensures e.state.Degraded? <==> AllAllowed(required, allowed) && SomeWithheld(given)
  {
    hide Withheld;
    var variables: map<string, string> := map[];
    var reasons := 0;
    for k := 0 to |given|
      invariant variables == VariablesOf(given[..k])
      invariant reasons > 0 <==> SomeWithheld(given[..k])
    {
      assert given[..k + 1][..k] == given[..k];
      assert given[..k + 1][k] == given[k];
      assert forall i :: 0 <= i < k ==> given[..k + 1][i] == given[..k][i];
      if Withheld(given[k].0) {
        reasons := reasons + 1;
        continue;
      }
      variables := variables[given[k].0 := given[k].1];
    }
    assert given[..|given|] == given;
    var missing: seq<string> := [];
    for k := 0 to |required|
      invariant missing == [] <==> AllAllowed(required[..k], allowed)
    {
      assert required[..k + 1] == required[..k] + [required[k]];
      if required[k] !in allowed {
        missing := missing + [required[k]];
      }
    }
    assert required[..|required|] == required;
    if missing != [] {
      return ChildEnvironment(variables, allowed, EnvironmentRefused);
    }
    e := ChildEnvironment(variables, allowed, if reasons == 0 then Applied else Degraded);
  }

  /** No withheld name is a variable of the child, and every other given name is. */
  lemma {:induction false} WithheldNamesNeverReach(given: seq<(string, string)>, name: string)
    ensures name in VariablesOf(given) <==>
              !Withheld(name) && exists i :: 0 <= i < |given| && given[i].0 == name
  {
    hide Withheld;
    if |given| > 0 {
      var front := given[..|given| - 1];
      WithheldNamesNeverReach(front, name);
      assert forall i :: 0 <= i < |front| ==> given[i] == front[i];
      assert Last(given) == given[|given| - 1];
    }
  }

  // ---- The two refusals agree ----

  /**
   A comparison refuses the run exactly when some required program is not allowed, which is the test
   the environment applies on its own reading of the requirement.
   */
  lemma VerdictRefusesExactly(commands: seq<Command>, allowed: seq<string>)
    ensures VerdictOf(Grouped(allowed, commands), commands) == RunRefused
       <==> !AllAllowed(Required(commands), allowed)
  {
    hide Grouped, FirstSeen, Programs;
    GroupedPrograms(allowed, commands);
    var missing, required := Programs(Grouped(allowed, commands)), Required(commands);
    if missing != [] {
      var x := missing[0];
      FirstSeenAre(allowed, commands, x);
      FirstSeenAre([], commands, x);
      assert x in required;
      var i :| 0 <= i < |required| && required[i] == x;
    }
    if i :| 0 <= i < |required| && required[i] !in allowed {
      FirstSeenAre([], commands, required[i]);
      FirstSeenAre(allowed, commands, required[i]);
      assert required[i] in missing;
    }
  }

  /** A coverage as it is made: compared, or of an attempt with no spec, where nothing was compared. */
  predicate Made(c: Comparison) {
    && c.missing == Grouped(c.allowed, c.commands)
    && if c.commands == [] && c.verdict == NotApplicable then true else c.verdict == VerdictOf(c.missing, c.commands)
  }

  lemma NothingToCompare(c: Comparison)
    requires Made(c) && c.verdict == NotApplicable
    ensures VerdictOf(Grouped(c.allowed, c.commands), c.commands) == Direct
  {
  }

  /** A variable of the operator's own environment, when it is set. */
  function Inherited(name: string, value: Option<string>): seq<(string, string)> {
    if value.Some? then [(name, value.value)] else []
  }

  /** The child environment of a run whose coverage was compared: the library's names, then the operator's. */
  method ChildEnvironmentWith(binding: seq<(string, string)>, path: Option<string>, user: Option<string>,
                              own: seq<string>, coverage: Option<Comparison>)
    returns (e: ChildEnvironment)
    requires coverage.Some? ==> Made(coverage.value)
    ensures e.state.EnvironmentRefused? <==> coverage.Some? && coverage.value.verdict == RunRefused
    ensures e.variables == VariablesOf(binding + Inherited("PATH", path) + Inherited("USER", user))
    ensures e.commands == if coverage.Some? then coverage.value.allowed else own
    ensures forall name :: name in e.variables ==> !Withheld(name)
  {
    hide Withheld, Grouped, VerdictOf, FirstSeen;
    var given := binding;
    if path.Some? {
      given := given + [("PATH", path.value)];
    }
    if user.Some? {
      given := given + [("USER", user.value)];
    }
    assert given == binding + Inherited("PATH", path) + Inherited("USER", user);
    var allowed, required := own, [];
    if coverage.Some? {
      allowed := coverage.value.allowed;
      required := RequiredPrograms(coverage.value.commands);
      VerdictRefusesExactly(coverage.value.commands, allowed);
      if coverage.value.verdict == NotApplicable {
        NothingToCompare(coverage.value);
      }
    }
    e := Construct(given, allowed, required);
    forall name | name in e.variables ensures !Withheld(name) {
      WithheldNamesNeverReach(given, name);
    }
  }
}
