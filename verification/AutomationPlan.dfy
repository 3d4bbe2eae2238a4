/** `planRun` and `revalidatePlan`: what holds at the moment the runtime is invoked. */
module AutomationPlan {
  import opened Text

  datatype Error = Denied | Invalid | Stale | Unavailable
  datatype Result<+T> = Ok(value: T) | Err(error: Error)

  datatype Value = Str(text: string) | Num(number: int) | Bool(flag: bool)

  datatype Definition = Definition(name: string, isPath: bool, required: bool)

  datatype ContextKind = NoContext | ActiveFile | MarkdownFile

  /** `watches` tells whether the postcondition is about a file rather than about the active file changing. */
  datatype Postcondition = Postcondition(watchesFile: bool, pathArgument: Option<string>)

  datatype PluginRule = PluginRule(id: string, minimum: Option<string>, maximumExclusive: Option<string>)

  datatype Entry = Entry(
    alias: string, revision: string, enabled: bool, commandId: string, plugin: Option<PluginRule>,
    minimumObsidianVersion: Option<string>, scopes: seq<string>, context: ContextKind, mutates: bool,
    definitions: seq<Definition>, postcondition: Postcondition)

  datatype Source = Core | Community | Unknown
  datatype Command = Command(
    id: string, source: Source, pluginId: Option<string>, pluginVersion: Option<string>, pluginEnabled: bool)

  /** Everything read from outside at one moment: settings, runtime, commands and the active file. */
  datatype World = World(
    enabled: bool, entries: seq<Entry>, runtimeAvailable: bool, desktop: bool, obsidianVersion: Option<string>,
    activeFile: Option<string>, commands: map<string, Command>)

  /**
   * Checks taken as fixed functions: path normalisation, scope matching, the forbidden command classes, version
   * ranges, the Markdown suffix, the shape of an alias and of an idempotency key, and the type, range and
   * length check of an argument. Nothing is assumed of any of them.
   */
  datatype Rules = Rules(
    normalize: string -> Option<string>,
    matches: (string, string) -> bool,
    forbidden: (string, Option<string>) -> bool,
    inRange: (Option<string>, Option<string>, Option<string>) -> bool,
    isMarkdown: string -> bool,
    safeAlias: string -> bool,
    safeKey: string -> bool,
    accepts: (Definition, Value) -> bool)

  datatype Input = Input(
    alias: string, revision: Option<string>, path: Option<string>, arguments: map<string, Value>, key: Option<string>)

  /** The request fingerprint: the sorted JSON of these parts, equal exactly when they are. */
  datatype Request = Request(
    alias: string, revision: string, path: Option<string>, activeFilePath: string, arguments: map<string, Value>)

  /** The policy fingerprint is the JSON of the entry, equal exactly when the entry is. */
  datatype Plan = Plan(
    alias: string, revision: string, targetPaths: seq<string>, arguments: map<string, Value>, key: Option<string>,
    postcondition: Postcondition, postconditionPath: Option<string>, command: Command, commandId: string,
    policy: Entry, request: Request, requestPath: Option<string>, activeFilePath: string)

  // ---------------------------------------------------------------------------
  // The checks
  // ---------------------------------------------------------------------------

  function FindEntry(entries: seq<Entry>, alias: string): (r: Option<Entry>)
    ensures r.Some? ==> r.value in entries && r.value.enabled && r.value.alias == alias
    ensures r.None? ==> forall e :: e in entries ==> !(e.enabled && e.alias == alias)
  {
    if entries == [] then None
    else if entries[0].enabled && entries[0].alias == alias then Some(entries[0])
    else FindEntry(entries[1..], alias)
  }

  predicate PathAllowed(rules: Rules, entry: Entry, path: string) {
    exists i :: 0 <= i < |entry.scopes| && rules.matches(path, entry.scopes[i])
  }

  function CheckArguments(rules: Rules, definitions: seq<Definition>, raw: map<string, Value>)
    : Option<map<string, Value>>
  {
    if definitions == [] then Some(map[])
    else
      var d := definitions[0];
      match CheckArguments(rules, definitions[1..], raw)
      case None => None
      case Some(rest) =>
        if d.name !in raw then (if d.required then None else Some(rest))
        else if !rules.accepts(d, raw[d.name]) then None
        else if !d.isPath then Some(rest[d.name := raw[d.name]])
        else if !raw[d.name].Str? then None
        else match rules.normalize(raw[d.name].text)
          case None => None
          case Some(path) => Some(rest[d.name := Str(path)])
  }

  function ValidateArguments(rules: Rules, entry: Entry, raw: map<string, Value>): Option<map<string, Value>> {
    if exists name :: name in raw && forall i :: 0 <= i < |entry.definitions| ==> entry.definitions[i].name != name
    then None
    else CheckArguments(rules, entry.definitions, raw)
  }

  predicate Eligible(rules: Rules, entry: Entry, command: Command, world: World) {
    && command.id == entry.commandId
    && !rules.forbidden(command.id, if command.pluginId.Some? then command.pluginId
                                    else if entry.plugin.Some? then Some(entry.plugin.value.id) else None)
    && world.desktop
    && (entry.minimumObsidianVersion.Some? ==> rules.inRange(world.obsidianVersion, entry.minimumObsidianVersion, None))
    && (match entry.plugin
        case None => command.source == Core
        case Some(plugin) =>
          && command.source == Community && command.pluginId == Some(plugin.id) && command.pluginEnabled
          && rules.inRange(command.pluginVersion, plugin.minimum, plugin.maximumExclusive))
  }

  /** `validateRuntime`: the command of the entry, if the runtime is there and the command eligible. */
  function EligibleCommand(rules: Rules, entry: Entry, world: World): Result<Command> {
    if !world.runtimeAvailable || entry.commandId !in world.commands then Err(Unavailable)
    else
      var command := world.commands[entry.commandId];
      if Eligible(rules, entry, command, world) then Ok(command)
      else if command.id == entry.commandId
           && rules.forbidden(command.id, if command.pluginId.Some? then command.pluginId
                                          else if entry.plugin.Some? then Some(entry.plugin.value.id) else None)
      then Err(Denied)
      else Err(Unavailable)
  }

  function ActivePath(rules: Rules, entry: Entry, world: World): Result<string> {
    if entry.context.NoContext? || world.activeFile.None? then Err(Unavailable)
    else match rules.normalize(world.activeFile.value)
      case None => Err(Unavailable)
      case Some(path) => if entry.context.MarkdownFile? && !rules.isMarkdown(path) then Err(Unavailable) else Ok(path)
  }

  /** The values of the path arguments that were given, in the order of their definitions. */
  function PathArguments(definitions: seq<Definition>, arguments: map<string, Value>): seq<string> {
    if definitions == [] then []
    else
      var d := definitions[0];
      (if d.isPath && d.name in arguments && arguments[d.name].Str? then [arguments[d.name].text] else [])
      + PathArguments(definitions[1..], arguments)
  }

  predicate AllActive(paths: seq<string>, active: string) {
    forall p :: p in paths ==> p == active
  }

  /** The supplied paths are all the active one. */
  predicate SuppliedMatchActive(
      entry: Entry, active: string, requestPath: Option<string>, arguments: map<string, Value>)
  {
    && (requestPath.Some? ==> requestPath.value == active)
    && AllActive(PathArguments(entry.definitions, arguments), active)
  }

  function PostconditionPath(
      rules: Rules, entry: Entry, requestPath: Option<string>, arguments: map<string, Value>, active: string)
    : Option<string>
  {
    if !entry.postcondition.watchesFile then None
    else match entry.postcondition.pathArgument
      case Some(name) =>
        if name in arguments && arguments[name].Str? then rules.normalize(arguments[name].text) else None
      case None => if requestPath.Some? then requestPath else Some(active)
  }

  function AddPath(paths: seq<string>, path: string): seq<string> {
    if path in paths then paths else paths + [path]
  }

  function AddPaths(paths: seq<string>, more: seq<string>): seq<string>
    decreases more
  {
    if more == [] then paths else AddPaths(AddPath(paths, more[0]), more[1..])
  }

  function Optional(path: Option<string>): seq<string> { if path.Some? then [path.value] else [] }

  function TargetPaths(
      entry: Entry, active: string, requestPath: Option<string>, arguments: map<string, Value>, post: Option<string>)
    : seq<string>
  {
    AddPaths([], [active] + Optional(requestPath) + PathArguments(entry.definitions, arguments) + Optional(post))
  }

  predicate AllAllowed(rules: Rules, entry: Entry, paths: seq<string>) {
    forall p :: p in paths ==> PathAllowed(rules, entry, p)
  }

  // ---------------------------------------------------------------------------
  // planRun and revalidatePlan
  // ---------------------------------------------------------------------------

  function PlanRun(rules: Rules, world: World, input: Input): Result<Plan> {
    if !world.enabled || !rules.safeAlias(input.alias) then Err(Denied)
    else match FindEntry(world.entries, input.alias)
      case None => Err(Denied)
      case Some(entry) =>
        if input.revision.Some? && input.revision.value != entry.revision then Err(Stale)
        else
          var requestPath := if input.path.None? then None else rules.normalize(input.path.value);
          if input.path.Some? && requestPath.None? then Err(Invalid)
          else match ValidateArguments(rules, entry, input.arguments)
            case None => Err(Invalid)
            case Some(arguments) => PlanFor(rules, world, input, entry, requestPath, arguments)
  }

  function PlanFor(
      rules: Rules, world: World, input: Input, entry: Entry, requestPath: Option<string>, arguments: map<string, Value>)
    : Result<Plan>
  {
    if !AllAllowed(rules, entry, Optional(requestPath) + PathArguments(entry.definitions, arguments)) then Err(Denied)
    else match EligibleCommand(rules, entry, world)
      case Err(e) => Err(e)
      case Ok(command) =>
        match ActivePath(rules, entry, world)
        case Err(e) => Err(e)
        case Ok(active) =>
          if !SuppliedMatchActive(entry, active, requestPath, arguments) then Err(Unavailable)
          else
            var post := PostconditionPath(rules, entry, requestPath, arguments, active);
            var targets := TargetPaths(entry, active, requestPath, arguments, post);
            if entry.postcondition.watchesFile && post.None? then Err(Invalid)
            else if !AllAllowed(rules, entry, targets) then Err(Denied)
            else if entry.mutates && targets == [] then Err(Invalid)
            else if input.key.Some? && !rules.safeKey(input.key.value) then Err(Invalid)
            else
              Ok(Plan(entry.alias, entry.revision, targets, arguments, input.key, entry.postcondition, post,
                      command, entry.commandId, entry,
                      Request(entry.alias, entry.revision, requestPath, active, arguments), requestPath, active))
  }

  function RevalidatePlan(rules: Rules, world: World, plan: Plan): Result<Plan> {
    if !world.enabled || FindEntry(world.entries, plan.alias).None? then Err(Stale)
    else
      var entry := FindEntry(world.entries, plan.alias).value;
      if entry.revision != plan.revision || entry != plan.policy then Err(Stale)
      else match ValidateArguments(rules, entry, plan.arguments)
        case None => Err(Invalid)
        case Some(arguments) =>
          match EligibleCommand(rules, entry, world)
          case Err(e) => Err(e)
          case Ok(command) =>
            match ActivePath(rules, entry, world)
            case Err(e) => Err(e)
            case Ok(active) => Recheck(rules, plan, entry, arguments, command, active)
  }

  function Recheck(
      rules: Rules, plan: Plan, entry: Entry, arguments: map<string, Value>, command: Command, active: string)
    : Result<Plan>
  {
    if active != plan.activeFilePath then Err(Stale)
    else if !SuppliedMatchActive(entry, active, plan.requestPath, arguments) then Err(Unavailable)
    else
      var post := PostconditionPath(rules, entry, plan.requestPath, arguments, active);
      var targets := TargetPaths(entry, active, plan.requestPath, arguments, post);
      if targets != plan.targetPaths || post != plan.postconditionPath || !AllAllowed(rules, entry, targets) then Err(Stale)
      else if Request(entry.alias, entry.revision, plan.requestPath, active, arguments) != plan.request then Err(Stale)
      else
        Ok(plan.(command := command, commandId := entry.commandId, postcondition := entry.postcondition,
                 postconditionPath := post, targetPaths := targets, arguments := arguments, activeFilePath := active))
  }

  // ---------------------------------------------------------------------------
  // What a validated argument is
  // ---------------------------------------------------------------------------

  predicate NamesDistinct(definitions: seq<Definition>) {
    forall i, j :: 0 <= i < j < |definitions| ==> definitions[i].name != definitions[j].name
  }

  /** What the policy normaliser guarantees: distinct argument names, and a watched path argument is a path. */
  predicate NormalizedPolicy(entry: Entry) {
    && NamesDistinct(entry.definitions)
    && (entry.postcondition.pathArgument.Some? ==>
          exists i :: 0 <= i < |entry.definitions| && entry.definitions[i].isPath
                      && entry.definitions[i].name == entry.postcondition.pathArgument.value)
  }

  predicate Names(definitions: seq<Definition>, name: string) {
    exists i :: 0 <= i < |definitions| && definitions[i].name == name
  }

  lemma {:induction false} NamesCons(definitions: seq<Definition>, name: string)
    requires definitions != []
    ensures Names(definitions, name) <==> definitions[0].name == name || Names(definitions[1..], name)
  {
    if i :| 0 <= i < |definitions| && definitions[i].name == name {
      if i > 0 { assert definitions[1..][i - 1].name == name; }
    }
    if i :| 0 <= i < |definitions[1..]| && definitions[1..][i].name == name {
      assert definitions[i + 1].name == name;
    }
  }

  /** Exactly the given arguments with a definition come out. */
  lemma {:induction false} CheckedNames(rules: Rules, definitions: seq<Definition>, raw: map<string, Value>)
    requires CheckArguments(rules, definitions, raw).Some?
    ensures forall name :: name in CheckArguments(rules, definitions, raw).value <==> name in raw && Names(definitions, name)
  {
    if definitions != [] {
      CheckedNames(rules, definitions[1..], raw);
      forall name
        ensures name in CheckArguments(rules, definitions, raw).value <==> name in raw && Names(definitions, name)
      {
        NamesCons(definitions, name);
      }
    }
  }

  /** A path argument comes out normalised, any other as it was. */
  predicate Checked(rules: Rules, d: Definition, raw: map<string, Value>, out: map<string, Value>) {
    d.name in out ==>
      && d.name in raw
      && (if d.isPath
          then raw[d.name].Str? && out[d.name].Str? && rules.normalize(raw[d.name].text) == Some(out[d.name].text)
          else out[d.name] == raw[d.name])
  }

  lemma {:induction false} CheckedArguments(rules: Rules, definitions: seq<Definition>, raw: map<string, Value>)
    requires NamesDistinct(definitions) && CheckArguments(rules, definitions, raw).Some?
    ensures forall i :: 0 <= i < |definitions| ==>
              Checked(rules, definitions[i], raw, CheckArguments(rules, definitions, raw).value)
  {
    if definitions != [] {
      var rest := definitions[1..];
      assert forall i :: 0 <= i < |rest| ==> rest[i] == definitions[i + 1];
      CheckedArguments(rules, rest, raw);
      CheckedNames(rules, rest, raw);
      assert !Names(rest, definitions[0].name);
      forall i | 0 <= i < |definitions|
        ensures Checked(rules, definitions[i], raw, CheckArguments(rules, definitions, raw).value)
      {
        if i > 0 {
          assert Checked(rules, rest[i - 1], raw, CheckArguments(rules, rest, raw).value);
          assert definitions[i].name != definitions[0].name;
        }
      }
    }
  }

  /** A definition lets the arguments through: not missing when required, well typed, and with a normal form if a path. */
  predicate Admits(rules: Rules, d: Definition, raw: map<string, Value>) {
    if d.name !in raw then !d.required
    else rules.accepts(d, raw[d.name]) && (d.isPath ==> raw[d.name].Str? && rules.normalize(raw[d.name].text).Some?)
  }

  lemma {:induction false} AllAdmit(rules: Rules, definitions: seq<Definition>, raw: map<string, Value>)
    ensures CheckArguments(rules, definitions, raw).Some?
            <==> forall i :: 0 <= i < |definitions| ==> Admits(rules, definitions[i], raw)
  {
    if definitions != [] {
      AllAdmit(rules, definitions[1..], raw);
      assert definitions == [definitions[0]] + definitions[1..];
    }
  }

  /**
   * Arguments are accepted exactly when each has a definition and every definition admits them; then exactly the
   * supplied names come out, paths in normal form and the rest as they were.
   */
  lemma {:induction false} AcceptedArguments(rules: Rules, entry: Entry, raw: map<string, Value>)
    requires NamesDistinct(entry.definitions)
    ensures ValidateArguments(rules, entry, raw).Some?
            <==> && (forall name :: name in raw ==> Names(entry.definitions, name))
                 && (forall i :: 0 <= i < |entry.definitions| ==> Admits(rules, entry.definitions[i], raw))
    ensures ValidateArguments(rules, entry, raw).Some? ==>
              var out := ValidateArguments(rules, entry, raw).value;
              && out.Keys == raw.Keys
              && forall i :: 0 <= i < |entry.definitions| ==> Checked(rules, entry.definitions[i], raw, out)
  {
    AllAdmit(rules, entry.definitions, raw);
    if ValidateArguments(rules, entry, raw).Some? {
      CheckedNames(rules, entry.definitions, raw);
      CheckedArguments(rules, entry.definitions, raw);
    }
  }

  lemma {:induction false} PathArgumentIn(definitions: seq<Definition>, arguments: map<string, Value>, i: nat)
    requires i < |definitions| && definitions[i].isPath
    requires definitions[i].name in arguments && arguments[definitions[i].name].Str?
    ensures arguments[definitions[i].name].text in PathArguments(definitions, arguments)
  {
    if i > 0 {
      PathArgumentIn(definitions[1..], arguments, i - 1);
    }
  }

  lemma {:induction false} PathArgumentFrom(definitions: seq<Definition>, arguments: map<string, Value>, p: string)
    requires p in PathArguments(definitions, arguments)
    ensures exists i :: 0 <= i < |definitions| && definitions[i].isPath
                        && definitions[i].name in arguments && arguments[definitions[i].name] == Str(p)
  {
    var d := definitions[0];
    if !(d.isPath && d.name in arguments && arguments[d.name] == Str(p)) {
      PathArgumentFrom(definitions[1..], arguments, p);
      var i :| 0 <= i < |definitions[1..]| && definitions[1..][i].isPath
               && definitions[1..][i].name in arguments && arguments[definitions[1..][i].name] == Str(p);
      assert definitions[i + 1] == definitions[1..][i];
    }
  }

  lemma {:induction false} AddOnly(path: string, more: seq<string>)
    requires forall i :: 0 <= i < |more| ==> more[i] == path
    ensures AddPaths([path], more) == [path]
  {
    if more != [] {
      assert AddPath([path], more[0]) == [path];
      AddOnly(path, more[1..]);
    }
  }

  // ---------------------------------------------------------------------------
  // No stale invocation
  // ---------------------------------------------------------------------------

  /** The plan's supplied paths are all its active path, and its policy is a normalised one. */
  ghost predicate AtActivePath(plan: Plan) {
    && NormalizedPolicy(plan.policy)
    && SuppliedMatchActive(plan.policy, plan.activeFilePath, plan.requestPath, plan.arguments)
  }

  lemma {:induction false} PlanRunAtActivePath(rules: Rules, world: World, input: Input)
    requires forall e :: e in world.entries ==> NormalizedPolicy(e)
    requires PlanRun(rules, world, input).Ok?
    ensures AtActivePath(PlanRun(rules, world, input).value)
  {
  }

  /** The world's policy, command and active file are the plan's, and every target path is allowed. */
  ghost predicate CurrentIn(rules: Rules, world: World, plan: Plan) {
    && world.enabled && world.runtimeAvailable
    && FindEntry(world.entries, plan.alias) == Some(plan.policy)
    && plan.policy.revision == plan.revision && plan.policy.commandId == plan.commandId
    && plan.commandId in world.commands && world.commands[plan.commandId] == plan.command
    && Eligible(rules, plan.policy, plan.command, world)
    && world.activeFile.Some? && rules.normalize(world.activeFile.value) == Some(plan.activeFilePath)
    && AllAllowed(rules, plan.policy, plan.targetPaths)
  }

  /** Revalidated path arguments: the argument and its normal form are both the active path. */
  lemma {:induction false} WatchedPathIsActive(rules: Rules, world: World, plan: Plan)
    requires AtActivePath(plan) && RevalidatePlan(rules, world, plan).Ok?
    ensures var p := RevalidatePlan(rules, world, plan).value;
            p.postconditionPath == None || p.postconditionPath == Some(plan.activeFilePath)
  {
    var p := RevalidatePlan(rules, world, plan).value;
    var entry := plan.policy;
    if entry.postcondition.watchesFile && entry.postcondition.pathArgument.Some? {
      var name := entry.postcondition.pathArgument.value;
      if name in p.arguments && p.arguments[name].Str? {
        CheckedArguments(rules, entry.definitions, plan.arguments);
        var i :| 0 <= i < |entry.definitions| && entry.definitions[i].isPath && entry.definitions[i].name == name;
        assert Checked(rules, entry.definitions[i], plan.arguments, p.arguments);
        PathArgumentIn(entry.definitions, p.arguments, i);
        assert p.arguments[name].text == plan.activeFilePath;
        PathArgumentIn(entry.definitions, plan.arguments, i);
        assert plan.arguments[name].text == plan.activeFilePath;
        assert rules.normalize(plan.activeFilePath) == Some(plan.activeFilePath);
      }
    }
  }

  lemma {:induction false} OnlyTarget(entry: Entry, a: string, requestPath: Option<string>, arguments: map<string, Value>, post: Option<string>)
    requires SuppliedMatchActive(entry, a, requestPath, arguments) && (post == None || post == Some(a))
    ensures TargetPaths(entry, a, requestPath, arguments, post) == [a]
  {
    var more := Optional(requestPath) + PathArguments(entry.definitions, arguments) + Optional(post);
    var all := [a] + Optional(requestPath) + PathArguments(entry.definitions, arguments) + Optional(post);
    assert all == [a] + more && all[0] == a && all[1..] == more;
    forall i | 0 <= i < |more|
      ensures more[i] == a
    {
      assert more[i] in more;
    }
    assert AddPath([], a) == [a];
    AddOnly(a, more);
  }

  /** Revalidation: the plan is current in the world it was checked in. */
  lemma {:induction false} RevalidatedIsCurrent(rules: Rules, world: World, plan: Plan)
    requires RevalidatePlan(rules, world, plan).Ok?
    ensures var p := RevalidatePlan(rules, world, plan).value;
            && CurrentIn(rules, world, p)
            && SuppliedMatchActive(plan.policy, plan.activeFilePath, p.requestPath, p.arguments)
            && p.policy == plan.policy && p.request == plan.request && p.activeFilePath == plan.activeFilePath
            && p.alias == plan.alias && p.revision == plan.revision && p.requestPath == plan.requestPath
  {
  }

  /** And concerns one path only. */
  lemma {:induction false} RevalidatedIsOnePath(rules: Rules, world: World, plan: Plan)
    requires AtActivePath(plan) && RevalidatePlan(rules, world, plan).Ok?
    ensures var p := RevalidatePlan(rules, world, plan).value;
            && AtActivePath(p) && p.targetPaths == [plan.activeFilePath]
            && (p.postconditionPath == None || p.postconditionPath == Some(plan.activeFilePath))
  {
    WatchedPathIsActive(rules, world, plan);
    RevalidatedIsCurrent(rules, world, plan);
    var p := RevalidatePlan(rules, world, plan).value;
    OnlyTarget(plan.policy, plan.activeFilePath, p.requestPath, p.arguments, p.postconditionPath);
  }

  /** `performExecution` up to the runtime call: two revalidations, in the worlds before and after the observation. */
  function AtInvocation(rules: Rules, beforeObserving: World, afterObserving: World, plan: Plan): Result<Plan> {
    match RevalidatePlan(rules, beforeObserving, plan)
    case Err(e) => Err(e)
    case Ok(observed) => RevalidatePlan(rules, afterObserving, observed)
  }

  /**
   * No stale invocation. Whatever changed since the plan was made, at the step that calls the runtime the
   * enabled policy entry, revision, active path and eligible command are the current ones and the plan's own;
   * the target paths are exactly the one active path, and the watched path is absent or that path.
   */
  lemma {:induction false} NoStaleInvocation(
      rules: Rules, planned: World, input: Input, beforeObserving: World, afterObserving: World)
    requires forall e :: e in planned.entries ==> NormalizedPolicy(e)
    requires PlanRun(rules, planned, input).Ok?
    requires AtInvocation(rules, beforeObserving, afterObserving, PlanRun(rules, planned, input).value).Ok?
    ensures var plan := PlanRun(rules, planned, input).value;
            var p := AtInvocation(rules, beforeObserving, afterObserving, plan).value;
            && CurrentIn(rules, afterObserving, p)
            && p.policy == plan.policy && p.alias == input.alias && p.revision == plan.revision
            && p.activeFilePath == plan.activeFilePath && p.request == plan.request
            && p.targetPaths == [plan.activeFilePath]
            && (p.postconditionPath == None || p.postconditionPath == Some(plan.activeFilePath))
  {
    PlanRunAtActivePath(rules, planned, input);
    var plan := PlanRun(rules, planned, input).value;
    RevalidatedIsCurrent(rules, beforeObserving, plan);
    RevalidatedIsOnePath(rules, beforeObserving, plan);
    var observed := RevalidatePlan(rules, beforeObserving, plan).value;
    RevalidatedIsCurrent(rules, afterObserving, observed);
    RevalidatedIsOnePath(rules, afterObserving, observed);
  }

  /** Nor does any later change go unnoticed: an unlike entry, command or active path refuses the plan. */
  lemma {:induction false} ChangesAreRefused(rules: Rules, world: World, plan: Plan)
    requires AtActivePath(plan)
    requires || !world.enabled || !world.runtimeAvailable
             || FindEntry(world.entries, plan.alias) != Some(plan.policy)
             || world.activeFile.None? || rules.normalize(world.activeFile.value) != Some(plan.activeFilePath)
             || plan.policy.commandId !in world.commands
             || !Eligible(rules, plan.policy, world.commands[plan.policy.commandId], world)
    ensures RevalidatePlan(rules, world, plan).Err?
  {
  }

  /**
   * A plan with a path argument can only be revalidated when its active path is its own normal form: the
   * argument is normalised a second time and must still be the active path.
   */
  lemma {:induction false} PathArgumentsNeedFixedPoint(rules: Rules, world: World, plan: Plan)
    requires AtActivePath(plan) && PathArguments(plan.policy.definitions, plan.arguments) != []
    requires rules.normalize(plan.activeFilePath) != Some(plan.activeFilePath)
    ensures RevalidatePlan(rules, world, plan).Err?
  {
    if RevalidatePlan(rules, world, plan).Ok? {
      var p := RevalidatePlan(rules, world, plan).value;
      var ds := plan.policy.definitions;
      var w := PathArguments(ds, plan.arguments)[0];
      PathArgumentFrom(ds, plan.arguments, w);
      var i :| 0 <= i < |ds| && ds[i].isPath && ds[i].name in plan.arguments && plan.arguments[ds[i].name] == Str(w);
      CheckedArguments(rules, ds, plan.arguments);
      CheckedNames(rules, ds, plan.arguments);
      assert Names(ds, ds[i].name) && Checked(rules, ds[i], plan.arguments, p.arguments);
      PathArgumentIn(ds, p.arguments, i);
    }
  }

  // ---------------------------------------------------------------------------
  // When a plan does revalidate
  // ---------------------------------------------------------------------------

  /** What planning settled, whatever the world does afterwards. */
  ghost predicate Settled(rules: Rules, plan: Plan) {
    var entry := plan.policy;
    && AtActivePath(plan) && !entry.context.NoContext? && (entry.context.MarkdownFile? ==> rules.isMarkdown(plan.activeFilePath))
    && plan.alias == entry.alias && plan.revision == entry.revision && plan.commandId == entry.commandId
    && plan.postcondition == entry.postcondition
    && plan.postconditionPath == PostconditionPath(rules, entry, plan.requestPath, plan.arguments, plan.activeFilePath)
    && plan.targetPaths == TargetPaths(entry, plan.activeFilePath, plan.requestPath, plan.arguments, plan.postconditionPath)
    && AllAllowed(rules, entry, plan.targetPaths)
    && plan.request == Request(entry.alias, entry.revision, plan.requestPath, plan.activeFilePath, plan.arguments)
    && ArgumentsSettled(rules, plan)
  }

  /** Every argument has a definition, none required is missing, and each but a path was accepted as it is. */
  ghost predicate ArgumentsSettled(rules: Rules, plan: Plan) {
    && (forall name :: name in plan.arguments ==> Names(plan.policy.definitions, name))
    && (forall i :: 0 <= i < |plan.policy.definitions| ==> DefinitionSettled(rules, plan.policy.definitions[i], plan.arguments))
  }

  predicate DefinitionSettled(rules: Rules, d: Definition, arguments: map<string, Value>) {
    if d.name !in arguments then !d.required
    else if d.isPath then arguments[d.name].Str?
    else rules.accepts(d, arguments[d.name])
  }

  /** The path argument is accepted by its definition again, and is its own normal form. */
  predicate PathStable(rules: Rules, d: Definition, arguments: map<string, Value>) {
    d.isPath && d.name in arguments ==>
      && rules.accepts(d, arguments[d.name])
      && arguments[d.name].Str? && rules.normalize(arguments[d.name].text) == Some(arguments[d.name].text)
  }

  ghost predicate PathsStable(rules: Rules, plan: Plan) {
    forall i :: 0 <= i < |plan.policy.definitions| ==> PathStable(rules, plan.policy.definitions[i], plan.arguments)
  }

  /** The world offers the plan's enabled entry, an eligible command for it, and its active file. */
  ghost predicate StillOffered(rules: Rules, world: World, plan: Plan) {
    && world.enabled && world.runtimeAvailable && FindEntry(world.entries, plan.alias) == Some(plan.policy)
    && plan.commandId in world.commands && Eligible(rules, plan.policy, world.commands[plan.commandId], world)
    && world.activeFile.Some? && rules.normalize(world.activeFile.value) == Some(plan.activeFilePath)
  }

  lemma {:induction false} PlanRunSettles(rules: Rules, world: World, input: Input)
    requires forall e :: e in world.entries ==> NormalizedPolicy(e)
    requires PlanRun(rules, world, input).Ok?
    ensures Settled(rules, PlanRun(rules, world, input).value) && StillOffered(rules, world, PlanRun(rules, world, input).value)
  {
    PlanRunAtActivePath(rules, world, input);
    var plan := PlanRun(rules, world, input).value;
    ArgumentsComeSettled(rules, plan, input.arguments);
  }

  lemma {:induction false} ArgumentsComeSettled(rules: Rules, plan: Plan, raw: map<string, Value>)
    requires NamesDistinct(plan.policy.definitions) && ValidateArguments(rules, plan.policy, raw) == Some(plan.arguments)
    ensures ArgumentsSettled(rules, plan)
  {
    AcceptedArguments(rules, plan.policy, raw);
    forall i | 0 <= i < |plan.policy.definitions|
      ensures DefinitionSettled(rules, plan.policy.definitions[i], plan.arguments)
    {
      var d := plan.policy.definitions[i];
      assert Admits(rules, d, raw) && Checked(rules, d, raw, plan.arguments);
      assert d.name in plan.arguments.Keys <==> d.name in raw.Keys;
    }
  }

  /** Validating settled arguments once more gives them back exactly when the given paths are stable. */
  lemma {:induction false} ValidatesAgainExactly(rules: Rules, plan: Plan)
    requires NamesDistinct(plan.policy.definitions) && ArgumentsSettled(rules, plan)
    ensures ValidateArguments(rules, plan.policy, plan.arguments) == Some(plan.arguments) <==> PathsStable(rules, plan)
  {
    var ds, args := plan.policy.definitions, plan.arguments;
    AcceptedArguments(rules, plan.policy, args);
    if PathsStable(rules, plan) {
      forall i | 0 <= i < |ds|
        ensures Admits(rules, ds[i], args)
      {
        assert DefinitionSettled(rules, ds[i], args) && PathStable(rules, ds[i], args);
      }
      StableComesBack(rules, ds, args, ValidateArguments(rules, plan.policy, args).value);
    }
    if ValidateArguments(rules, plan.policy, args) == Some(args) {
      forall i | 0 <= i < |ds|
        ensures PathStable(rules, ds[i], args)
      {
        assert Admits(rules, ds[i], args) && Checked(rules, ds[i], args, args);
      }
    }
  }

  lemma {:induction false} StableComesBack(rules: Rules, ds: seq<Definition>, args: map<string, Value>, out: map<string, Value>)
    requires out.Keys == args.Keys && forall name :: name in args ==> Names(ds, name)
    requires forall i :: 0 <= i < |ds| ==> PathStable(rules, ds[i], args) && Checked(rules, ds[i], args, out)
    ensures out == args
  {
    forall name | name in args
      ensures name in out && out[name] == args[name]
    {
      assert name in out.Keys;
      var i :| 0 <= i < |ds| && ds[i].name == name;
      assert PathStable(rules, ds[i], args) && Checked(rules, ds[i], args, out);
    }
  }

  lemma {:induction false} OfferedRechecks(rules: Rules, world: World, plan: Plan)
    requires Settled(rules, plan) && StillOffered(rules, world, plan)
    requires ValidateArguments(rules, plan.policy, plan.arguments) == Some(plan.arguments)
    ensures RevalidatePlan(rules, world, plan) == Ok(plan.(command := world.commands[plan.commandId]))
  {
    assert EligibleCommand(rules, plan.policy, world) == Ok(world.commands[plan.commandId]);
    assert ActivePath(rules, plan.policy, world) == Ok(plan.activeFilePath);
  }

  lemma {:induction false} RevalidatedValidatesAgain(rules: Rules, world: World, plan: Plan)
    requires Settled(rules, plan) && RevalidatePlan(rules, world, plan).Ok?
    ensures StillOffered(rules, world, plan)
    ensures ValidateArguments(rules, plan.policy, plan.arguments) == Some(plan.arguments)
  {
    RevalidatedIsCurrent(rules, world, plan);
  }

  lemma {:induction false} SettledRevalidatesExactly(rules: Rules, world: World, plan: Plan)
    requires Settled(rules, plan)
    ensures RevalidatePlan(rules, world, plan).Ok? <==> StillOffered(rules, world, plan) && PathsStable(rules, plan)
    ensures RevalidatePlan(rules, world, plan).Ok? ==>
              RevalidatePlan(rules, world, plan) == Ok(plan.(command := world.commands[plan.commandId]))
  {
    ValidatesAgainExactly(rules, plan);
    if StillOffered(rules, world, plan) && PathsStable(rules, plan) { OfferedRechecks(rules, world, plan); }
    if RevalidatePlan(rules, world, plan).Ok? {
      RevalidatedValidatesAgain(rules, world, plan);
      OfferedRechecks(rules, world, plan);
    }
  }

  /**
   * A plan made by `planRun` reaches the runtime, through whatever worlds, if and only if both of them still offer its
   * entry, command and active file, and every given path argument is accepted again and is its own normal form.
   */
  lemma {:induction false} InvokesExactly(
      rules: Rules, planned: World, input: Input, beforeObserving: World, afterObserving: World)
    requires forall e :: e in planned.entries ==> NormalizedPolicy(e)
    requires PlanRun(rules, planned, input).Ok?
    ensures var plan := PlanRun(rules, planned, input).value;
            AtInvocation(rules, beforeObserving, afterObserving, plan).Ok?
            <==> && StillOffered(rules, beforeObserving, plan) && StillOffered(rules, afterObserving, plan)
                 && PathsStable(rules, plan)
  {
    PlanRunSettles(rules, planned, input);
    var plan := PlanRun(rules, planned, input).value;
    SettledRevalidatesExactly(rules, beforeObserving, plan);
    if RevalidatePlan(rules, beforeObserving, plan).Ok? {
      SettledRevalidatesExactly(rules, afterObserving, RevalidatePlan(rules, beforeObserving, plan).value);
    }
  }

  /** So an unchanged plan in an unchanged world revalidates exactly when its path arguments are stable. */
  lemma {:induction false} UnchangedPlanRevalidatesExactly(rules: Rules, world: World, input: Input)
    requires forall e :: e in world.entries ==> NormalizedPolicy(e)
    requires PlanRun(rules, world, input).Ok?
    ensures var plan := PlanRun(rules, world, input).value;
            RevalidatePlan(rules, world, plan) == Ok(plan) <==> PathsStable(rules, plan)
  {
    PlanRunSettles(rules, world, input);
    SettledRevalidatesExactly(rules, world, PlanRun(rules, world, input).value);
    PlannedCommand(rules, world, input);
  }

  lemma {:induction false} PlannedCommand(rules: Rules, world: World, input: Input)
    requires PlanRun(rules, world, input).Ok?
    ensures var plan := PlanRun(rules, world, input).value;
            plan.commandId in world.commands && plan.command == world.commands[plan.commandId]
  {
  }

  // ---------------------------------------------------------------------------
  // Which requests are planned
  // ---------------------------------------------------------------------------

  /** Of the kind the policy asks for, wherever it comes from, and of a version it accepts. */
  predicate FromTheRightPlace(rules: Rules, entry: Entry, command: Command) {
    if entry.plugin.None? then command.source == Core
    else
      && command.source == Community && command.pluginEnabled
      && command.pluginId == Some(entry.plugin.value.id)
      && rules.inRange(command.pluginVersion, entry.plugin.value.minimum, entry.plugin.value.maximumExclusive)
  }

  /** The plugin a command is judged by: its own, or the policy's. */
  function JudgedPlugin(entry: Entry, command: Command): Option<string> {
    if command.pluginId.Some? || entry.plugin.None? then command.pluginId else Some(entry.plugin.value.id)
  }

  /** What the runtime is called with is the policy's command, not forbidden, and from the right place. */
  lemma {:induction false} InvokedCommandIsApproved(
      rules: Rules, planned: World, input: Input, beforeObserving: World, afterObserving: World)
    requires forall e :: e in planned.entries ==> NormalizedPolicy(e)
    requires PlanRun(rules, planned, input).Ok?
    requires AtInvocation(rules, beforeObserving, afterObserving, PlanRun(rules, planned, input).value).Ok?
    ensures var p := AtInvocation(rules, beforeObserving, afterObserving, PlanRun(rules, planned, input).value).value;
            && p.policy in afterObserving.entries && p.policy.enabled && p.policy.alias == input.alias
            && p.command == afterObserving.commands[p.policy.commandId] && p.command.id == p.policy.commandId
            && !rules.forbidden(p.command.id, JudgedPlugin(p.policy, p.command))
            && FromTheRightPlace(rules, p.policy, p.command) && afterObserving.desktop
            && (p.policy.minimumObsidianVersion.Some? ==>
                  rules.inRange(afterObserving.obsidianVersion, p.policy.minimumObsidianVersion, None))
  {
    NoStaleInvocation(rules, planned, input, beforeObserving, afterObserving);
  }

  /** And every such command is eligible. */
  lemma {:induction false} EligibleExactly(rules: Rules, entry: Entry, command: Command, world: World)
    ensures Eligible(rules, entry, command, world)
            <==> && command.id == entry.commandId && !rules.forbidden(command.id, JudgedPlugin(entry, command))
                 && world.desktop && FromTheRightPlace(rules, entry, command)
                 && (entry.minimumObsidianVersion.Some? ==>
                       rules.inRange(world.obsidianVersion, entry.minimumObsidianVersion, None))
  {
  }

  /** A forbidden command is denied, one that is missing or does not fit is unavailable, and a stale request is said to be. */
  lemma {:induction false} RefusalSays(rules: Rules, world: World, entry: Entry, input: Input)
    ensures EligibleCommand(rules, entry, world) == Err(Denied)
            <==> && world.runtimeAvailable && entry.commandId in world.commands
                 && world.commands[entry.commandId].id == entry.commandId
                 && rules.forbidden(entry.commandId, JudgedPlugin(entry, world.commands[entry.commandId]))
    ensures EligibleCommand(rules, entry, world).Err? ==>
              EligibleCommand(rules, entry, world).error in {Denied, Unavailable}
    ensures world.enabled && rules.safeAlias(input.alias) && FindEntry(world.entries, input.alias) == Some(entry) ==>
              (PlanRun(rules, world, input) == Err(Stale) <==> input.revision.Some? && input.revision.value != entry.revision)
    ensures !world.enabled || !rules.safeAlias(input.alias) || FindEntry(world.entries, input.alias).None? ==>
              PlanRun(rules, world, input) == Err(Denied)
  {
  }

  /** The paths a request gives, in normal form, are all the active path. */
  predicate AsksForActive(rules: Rules, entry: Entry, input: Input, active: string) {
    && (input.path.Some? ==> rules.normalize(input.path.value) == Some(active))
    && AllAtActive(rules, entry.definitions, input.arguments, active)
  }

  predicate ArgumentAtActive(rules: Rules, d: Definition, arguments: map<string, Value>, active: string) {
    d.isPath && d.name in arguments ==> arguments[d.name].Str? && rules.normalize(arguments[d.name].text) == Some(active)
  }

  /** The watched path can be resolved, and is approved: a given path argument is normalised once more for it. */
  predicate WatchesApproved(rules: Rules, entry: Entry, input: Input, active: string) {
    entry.postcondition.watchesFile && entry.postcondition.pathArgument.Some? ==>
      && entry.postcondition.pathArgument.value in input.arguments
      && rules.normalize(active).Some? && PathAllowed(rules, entry, rules.normalize(active).value)
  }

  /** The world offers an enabled entry and an eligible command for it. */
  predicate OffersRun(rules: Rules, world: World, entry: Entry) {
    && world.enabled && FindEntry(world.entries, entry.alias) == Some(entry) && !entry.context.NoContext?
    && world.runtimeAvailable && entry.commandId in world.commands
    && Eligible(rules, entry, world.commands[entry.commandId], world)
  }

  predicate IsActive(rules: Rules, world: World, entry: Entry, active: string) {
    && world.activeFile.Some? && rules.normalize(world.activeFile.value) == Some(active)
    && (entry.context.MarkdownFile? ==> rules.isMarkdown(active)) && PathAllowed(rules, entry, active)
  }

  predicate FitsPolicy(rules: Rules, entry: Entry, input: Input, active: string) {
    && entry.alias == input.alias && rules.safeAlias(input.alias)
    && (input.revision.Some? ==> input.revision.value == entry.revision)
    && (input.key.Some? ==> rules.safeKey(input.key.value))
    && (forall name :: name in input.arguments ==> Names(entry.definitions, name))
    && (forall i :: 0 <= i < |entry.definitions| ==> Admits(rules, entry.definitions[i], input.arguments))
    && AsksForActive(rules, entry, input, active) && WatchesApproved(rules, entry, input, active)
  }

  /** The request is for this entry at this active path, and both are as the policy wants them. */
  ghost predicate MayRun(rules: Rules, world: World, input: Input, entry: Entry, active: string) {
    OffersRun(rules, world, entry) && IsActive(rules, world, entry, active) && FitsPolicy(rules, entry, input, active)
  }

  predicate AllAtActive(rules: Rules, ds: seq<Definition>, arguments: map<string, Value>, active: string) {
    forall i :: 0 <= i < |ds| ==> ArgumentAtActive(rules, ds[i], arguments, active)
  }

  lemma {:induction false} GivenAtActive(
      rules: Rules, ds: seq<Definition>, raw: map<string, Value>, out: map<string, Value>, active: string)
    requires out.Keys == raw.Keys && AllActive(PathArguments(ds, out), active)
    requires forall i :: 0 <= i < |ds| ==> Checked(rules, ds[i], raw, out)
    ensures AllAtActive(rules, ds, raw, active)
  {
    forall i | 0 <= i < |ds|
      ensures ArgumentAtActive(rules, ds[i], raw, active)
    {
      if ds[i].isPath && ds[i].name in raw.Keys {
        assert ds[i].name in out.Keys && Checked(rules, ds[i], raw, out);
        PathArgumentIn(ds, out, i);
      }
    }
  }

  lemma {:induction false} TakenAtActive(
      rules: Rules, ds: seq<Definition>, raw: map<string, Value>, out: map<string, Value>, active: string)
    requires AllAtActive(rules, ds, raw, active)
    requires forall i :: 0 <= i < |ds| ==> Checked(rules, ds[i], raw, out)
    ensures AllActive(PathArguments(ds, out), active)
  {
    forall p | p in PathArguments(ds, out)
      ensures p == active
    {
      PathArgumentFrom(ds, out, p);
      var i :| 0 <= i < |ds| && ds[i].isPath && ds[i].name in out && out[ds[i].name] == Str(p);
      assert Checked(rules, ds[i], raw, out) && ArgumentAtActive(rules, ds[i], raw, active);
    }
  }

  /** Path arguments that were all accepted as the active path. */
  lemma {:induction false} PathsAtActive(
      rules: Rules, ds: seq<Definition>, raw: map<string, Value>, out: map<string, Value>, active: string)
    requires out.Keys == raw.Keys
    requires forall i :: 0 <= i < |ds| ==> Checked(rules, ds[i], raw, out)
    ensures AllAtActive(rules, ds, raw, active) <==> AllActive(PathArguments(ds, out), active)
  {
    if AllActive(PathArguments(ds, out), active) { GivenAtActive(rules, ds, raw, out, active); }
    if AllAtActive(rules, ds, raw, active) { TakenAtActive(rules, ds, raw, out, active); }
  }

  lemma {:induction false} AddPathsOn(paths: seq<string>, more: seq<string>, last: seq<string>)
    ensures AddPaths(paths, more + last) == AddPaths(AddPaths(paths, more), last)
    decreases more
  {
    if more == [] {
      assert more + last == last;
    } else {
      AddPathsOn(AddPath(paths, more[0]), more[1..], last);
      assert (more + last)[0] == more[0] && (more + last)[1..] == more[1..] + last;
    }
  }

  /** The active path, and the watched one if it is another. */
  function ActiveAndWatched(active: string, post: Option<string>): seq<string> {
    if post.Some? && post.value != active then [active, post.value] else [active]
  }

  lemma {:induction false} TargetsOfActive(
      entry: Entry, active: string, requestPath: Option<string>, arguments: map<string, Value>, post: Option<string>)
    requires SuppliedMatchActive(entry, active, requestPath, arguments)
    ensures TargetPaths(entry, active, requestPath, arguments, post) == ActiveAndWatched(active, post)
  {
    OnlyTarget(entry, active, requestPath, arguments, None);
    var supplied := [active] + Optional(requestPath) + PathArguments(entry.definitions, arguments);
    assert supplied + Optional(None) == supplied;
    AddPathsOn([], supplied, Optional(post));
    if post.Some? {
      assert [post.value][1..] == [] && AddPaths([active], [post.value]) == AddPath([active], post.value);
    }
  }

  /** What `planRun` has read and settled before it looks at the runtime. */
  ghost predicate Read(rules: Rules, world: World, input: Input, entry: Entry, requestPath: Option<string>, out: map<string, Value>) {
    && world.enabled && rules.safeAlias(input.alias) && FindEntry(world.entries, input.alias) == Some(entry)
    && (input.revision.Some? ==> input.revision.value == entry.revision)
    && requestPath == (if input.path.None? then None else rules.normalize(input.path.value))
    && (input.path.Some? ==> requestPath.Some?)
    && ValidateArguments(rules, entry, input.arguments) == Some(out)
  }

  lemma {:induction false} ReadThenPlans(
      rules: Rules, world: World, input: Input, entry: Entry, requestPath: Option<string>, out: map<string, Value>)
    requires Read(rules, world, input, entry, requestPath, out)
    ensures PlanRun(rules, world, input) == PlanFor(rules, world, input, entry, requestPath, out)
  {
  }

  lemma {:induction false} PlannedWasRead(rules: Rules, world: World, input: Input, entry: Entry)
    requires PlanRun(rules, world, input).Ok? && PlanRun(rules, world, input).value.policy == entry
    ensures Read(rules, world, input, entry, PlanRun(rules, world, input).value.requestPath,
                 PlanRun(rules, world, input).value.arguments)
  {
  }

  /** The argument watched by the postcondition is the active path, and is normalised again. */
  lemma {:induction false} WatchedIsActiveAgain(
      rules: Rules, entry: Entry, input: Input, requestPath: Option<string>, out: map<string, Value>, active: string)
    requires NormalizedPolicy(entry) && ValidateArguments(rules, entry, input.arguments) == Some(out)
    requires SuppliedMatchActive(entry, active, requestPath, out)
    ensures PostconditionPath(rules, entry, requestPath, out, active)
            == (if !entry.postcondition.watchesFile then None
                else if entry.postcondition.pathArgument.None? then Some(active)
                else if entry.postcondition.pathArgument.value in input.arguments then rules.normalize(active) else None)
  {
    AcceptedArguments(rules, entry, input.arguments);
    if entry.postcondition.watchesFile && entry.postcondition.pathArgument.Some? {
      var name := entry.postcondition.pathArgument.value;
      assert name in out.Keys <==> name in input.arguments.Keys;
      if name in out {
        var i :| 0 <= i < |entry.definitions| && entry.definitions[i].isPath && entry.definitions[i].name == name;
        assert Checked(rules, entry.definitions[i], input.arguments, out);
        PathArgumentIn(entry.definitions, out, i);
      }
    }
  }

  lemma {:induction false} PlansForExactly(
      rules: Rules, world: World, input: Input, entry: Entry, requestPath: Option<string>, out: map<string, Value>,
      active: string)
    requires Read(rules, world, input, entry, requestPath, out) && NormalizedPolicy(entry) && entry.alias == input.alias
    ensures PlanFor(rules, world, input, entry, requestPath, out).Ok?
            && PlanFor(rules, world, input, entry, requestPath, out).value.activeFilePath == active
            <==> MayRun(rules, world, input, entry, active)
  {
    SuppliedAsksForActive(rules, world, input, entry, requestPath, out, active);
    if SuppliedMatchActive(entry, active, requestPath, out) {
      GatesExactly(rules, world, input, entry, requestPath, out, active);
    }
  }

  lemma {:induction false} SuppliedAsksForActive(
      rules: Rules, world: World, input: Input, entry: Entry, requestPath: Option<string>, out: map<string, Value>,
      active: string)
    requires Read(rules, world, input, entry, requestPath, out) && NormalizedPolicy(entry)
    ensures SuppliedMatchActive(entry, active, requestPath, out) <==> AsksForActive(rules, entry, input, active)
    ensures forall name :: name in input.arguments ==> Names(entry.definitions, name)
    ensures forall i :: 0 <= i < |entry.definitions| ==> Admits(rules, entry.definitions[i], input.arguments)
  {
    AcceptedArguments(rules, entry, input.arguments);
    PathsAtActive(rules, entry.definitions, input.arguments, out, active);
  }

  lemma {:induction false} GatesExactly(
      rules: Rules, world: World, input: Input, entry: Entry, requestPath: Option<string>, out: map<string, Value>,
      active: string)
    requires Read(rules, world, input, entry, requestPath, out) && NormalizedPolicy(entry)
    requires SuppliedMatchActive(entry, active, requestPath, out)
    ensures PlanFor(rules, world, input, entry, requestPath, out).Ok?
            && PlanFor(rules, world, input, entry, requestPath, out).value.activeFilePath == active
            <==> && EligibleCommand(rules, entry, world).Ok? && ActivePath(rules, entry, world) == Ok(active)
                 && PathAllowed(rules, entry, active) && WatchesApproved(rules, entry, input, active)
                 && (input.key.Some? ==> rules.safeKey(input.key.value))
  {
    var post := PostconditionPath(rules, entry, requestPath, out, active);
    PlanForInParts(rules, world, input, entry, requestPath, out, active, post);
    WatchedIsActiveAgain(rules, entry, input, requestPath, out, active);
    TargetsOfActive(entry, active, requestPath, out, post);
    AllowedAtActive(rules, entry, active, requestPath, out, post);
  }

  lemma {:induction false} PlanForInParts(
      rules: Rules, world: World, input: Input, entry: Entry, requestPath: Option<string>, out: map<string, Value>,
      active: string, post: Option<string>)
    requires SuppliedMatchActive(entry, active, requestPath, out)
    requires post == PostconditionPath(rules, entry, requestPath, out, active)
    ensures PlanFor(rules, world, input, entry, requestPath, out).Ok?
            && PlanFor(rules, world, input, entry, requestPath, out).value.activeFilePath == active
            <==> && AllAllowed(rules, entry, Optional(requestPath) + PathArguments(entry.definitions, out))
                 && EligibleCommand(rules, entry, world).Ok? && ActivePath(rules, entry, world) == Ok(active)
                 && (entry.postcondition.watchesFile ==> post.Some?)
                 && AllAllowed(rules, entry, TargetPaths(entry, active, requestPath, out, post))
                 && (entry.mutates ==> TargetPaths(entry, active, requestPath, out, post) != [])
                 && (input.key.Some? ==> rules.safeKey(input.key.value))
  {
  }

  lemma {:induction false} AllowedAtActive(
      rules: Rules, entry: Entry, active: string, requestPath: Option<string>, out: map<string, Value>, post: Option<string>)
    requires SuppliedMatchActive(entry, active, requestPath, out)
    ensures PathAllowed(rules, entry, active) ==>
              AllAllowed(rules, entry, Optional(requestPath) + PathArguments(entry.definitions, out))
    ensures AllAllowed(rules, entry, ActiveAndWatched(active, post))
            <==> PathAllowed(rules, entry, active) && (post.Some? ==> PathAllowed(rules, entry, post.value))
  {
    assert forall p :: p in Optional(requestPath) + PathArguments(entry.definitions, out) ==> p == active;
    assert active in ActiveAndWatched(active, post);
    assert post.Some? ==> post.value in ActiveAndWatched(active, post);
  }

  /**
   * Which requests are planned. A run of `entry` at the active path is planned if and only if the world offers it, the
   * request fits the policy, every path it gives is the active one, and the watched path resolves and is approved.
   */
  lemma {:induction false} PlansExactly(rules: Rules, world: World, input: Input, entry: Entry, active: string)
    requires forall e :: e in world.entries ==> NormalizedPolicy(e)
    ensures PlanRun(rules, world, input).Ok? && PlanRun(rules, world, input).value.policy == entry
            && PlanRun(rules, world, input).value.activeFilePath == active
            <==> MayRun(rules, world, input, entry, active)
  {
    if MayRun(rules, world, input, entry, active) {
      AcceptedArguments(rules, entry, input.arguments);
      var out := ValidateArguments(rules, entry, input.arguments).value;
      var requestPath := if input.path.None? then None else rules.normalize(input.path.value);
      ReadThenPlans(rules, world, input, entry, requestPath, out);
      PlansForExactly(rules, world, input, entry, requestPath, out, active);
    }
    if PlanRun(rules, world, input).Ok? && PlanRun(rules, world, input).value.policy == entry
       && PlanRun(rules, world, input).value.activeFilePath == active {
      var plan := PlanRun(rules, world, input).value;
      PlannedWasRead(rules, world, input, entry);
      ReadThenPlans(rules, world, input, entry, plan.requestPath, plan.arguments);
      PlansForExactly(rules, world, input, entry, plan.requestPath, plan.arguments, active);
    }
  }

  /** The plan carries the request: its alias, revision and key, its arguments at the active path, and one fingerprint. */
  lemma {:induction false} PlanCarriesRequest(rules: Rules, world: World, input: Input)
    requires forall e :: e in world.entries ==> NormalizedPolicy(e)
    requires PlanRun(rules, world, input).Ok?
    ensures var p := PlanRun(rules, world, input).value;
            && p.alias == input.alias && p.policy.alias == input.alias && p.revision == p.policy.revision
            && (input.revision.Some? ==> input.revision.value == p.revision) && p.key == input.key
            && p.commandId == p.policy.commandId && p.postcondition == p.policy.postcondition
            && p.requestPath == (if input.path.None? then None else Some(p.activeFilePath))
            && p.arguments.Keys == input.arguments.Keys
            && (forall i :: 0 <= i < |p.policy.definitions| ==> Carried(p.policy.definitions[i], input.arguments, p))
            && p.request == Request(p.alias, p.revision, p.requestPath, p.activeFilePath, p.arguments)
            && p.targetPaths == ActiveAndWatched(p.activeFilePath, p.postconditionPath)
            && p.postconditionPath
               == (if !p.policy.postcondition.watchesFile then None
                   else if p.policy.postcondition.pathArgument.None? then Some(p.activeFilePath)
                   else rules.normalize(p.activeFilePath))
  {
    var p := PlanRun(rules, world, input).value;
    PlansExactly(rules, world, input, p.policy, p.activeFilePath);
    PlannedWasRead(rules, world, input, p.policy);
    AcceptedArguments(rules, p.policy, input.arguments);
    PlanRunAtActivePath(rules, world, input);
    TargetsOfActive(p.policy, p.activeFilePath, p.requestPath, p.arguments, p.postconditionPath);
    WatchedIsActiveAgain(rules, p.policy, input, p.requestPath, p.arguments, p.activeFilePath);
    forall i | 0 <= i < |p.policy.definitions|
      ensures Carried(p.policy.definitions[i], input.arguments, p)
    {
      var d := p.policy.definitions[i];
      assert Checked(rules, d, input.arguments, p.arguments) && (d.name in p.arguments.Keys <==> d.name in input.arguments.Keys);
      if d.isPath && d.name in p.arguments { PathArgumentIn(p.policy.definitions, p.arguments, i); }
    }
  }

  /** A given argument is in the plan, a path as the active path and any other as it was given. */
  predicate Carried(d: Definition, raw: map<string, Value>, plan: Plan) {
    d.name in raw ==>
      d.name in plan.arguments && plan.arguments[d.name] == if d.isPath then Str(plan.activeFilePath) else raw[d.name]
  }

  // ---------------------------------------------------------------------------
  // A plan that never revalidates
  // ---------------------------------------------------------------------------

  /** One command with one path argument, for the active file `/ a`, whose normal form is ` a`, whose own is `a`. */
  const SLASH_RULES := Rules(
    s => if s == "/ a" then Some(" a") else if s == " a" then Some("a") else Some(s),
    (_, _) => true, (_, _) => false, (_, _, _) => true, _ => true, _ => true, _ => true, (_, _) => true)

  const ONE_PATH := Entry(
    "tidy", "1", true, "cmd", None, None, ["**"], ActiveFile, false, [Definition("file", true, true)],
    Postcondition(false, None))

  const SLASH_WORLD := World(
    true, [ONE_PATH], true, true, None, Some("/ a"), map["cmd" := Command("cmd", Core, None, None, true)])

  const SLASH_INPUT := Input("tidy", None, None, map["file" := Str("/ a")], None)

  /** The run is planned, and in the same world its plan is refused. */
  lemma {:induction false} SlashPlanNeverRevalidates()
    ensures PlanRun(SLASH_RULES, SLASH_WORLD, SLASH_INPUT).Ok?
    ensures RevalidatePlan(SLASH_RULES, SLASH_WORLD, PlanRun(SLASH_RULES, SLASH_WORLD, SLASH_INPUT).value).Err?
  {
    var rules, d := SLASH_RULES, Definition("file", true, true);
    assert "/ a" != " a" by { assert "/ a"[0] != " a"[0]; }
    assert rules.normalize("/ a") == Some(" a") && rules.normalize(" a") == Some("a");
    assert ONE_PATH.definitions[0] == d;
    assert FindEntry([ONE_PATH], "tidy") == Some(ONE_PATH);
    assert ONE_PATH.scopes[0] == "**";
    assert [ONE_PATH.definitions[0]][1..] == [];
    assert PlanRun(rules, SLASH_WORLD, SLASH_INPUT)
           == PlanFor(rules, SLASH_WORLD, SLASH_INPUT, ONE_PATH, None, map["file" := Str(" a")]);
  }
}
