/** The telemetry log filter: validated target overrides rendered into one directive string. */
module LogFilter {
  import opened Wrappers
  import opened Text

  const MAX_IDENTITY_BYTES: nat := 128

  datatype Level = Off | Error | Warn | Info {
    function Name(): string {
      match this
      case Off => "off"
      case Error => "error"
      case Warn => "warn"
      case Info => "info"
    }
  }

  type TargetLevel = (string, Level)

  datatype Config = Config(defaultLevel: Level, targetLevels: seq<TargetLevel>)

  predicate IdentifierChar(c: char) {
    'a' <= c <= 'z' || 'A' <= c <= 'Z' || '0' <= c <= '9' || c == '.' || c == '_' || c == '-'
  }

  predicate ValidIdentifier(s: string) {
    s != [] && Utf8Len(s) <= MAX_IDENTITY_BYTES && forall i :: 0 <= i < |s| ==> IdentifierChar(s[i])
  }

  function WithTargetLevel(config: Config, target: string, level: Level): Config {
    if ValidIdentifier(target) then config.(targetLevels := config.targetLevels + [(target, level)]) else config
  }

  /** Any sequence of builder calls. */
  function Build(defaultLevel: Level, calls: seq<TargetLevel>): Config {
    if calls == [] then Config(defaultLevel, [])
    else
      var last := calls[|calls| - 1];
      WithTargetLevel(Build(defaultLevel, calls[..|calls| - 1]), last.0, last.1)
  }

  /** The environment value; None when unset or not UTF-8. */
  function ConfiguredLevel(value: Option<string>, default: Level): Level {
    match value
    case None => default
    case Some(text) => if text == "error" then Error else if text == "info" then Info else Warn
  }

  const DEPENDENCIES: seq<TargetLevel> := [
    ("rmcp", Off), ("hyper", Warn), ("hyper_util", Warn), ("h2", Warn), ("reqwest", Warn), ("tonic", Warn),
    ("tower", Warn), ("tower_http", Warn), ("axum", Warn), ("tungstenite", Warn), ("tokio_tungstenite", Warn)]

  function RenderTarget(t: TargetLevel): string {
    t.0 + "=" + t.1.Name()
  }

  function RenderTargets(targets: seq<TargetLevel>): (r: seq<string>)
    ensures |r| == |targets| && forall i :: 0 <= i < |r| ==> r[i] == RenderTarget(targets[i])
  {
    seq(|targets|, i requires 0 <= i < |targets| => RenderTarget(targets[i]))
  }

  function Render(env: Option<string>, config: Config): string {
    Join(",", [ConfiguredLevel(env, config.defaultLevel).Name()]
              + RenderTargets(config.targetLevels)
              + [Join(",", RenderTargets(DEPENDENCIES))])
  }

  // ---------------------------------------------------------------- reading it back

  datatype Directive = Default(level: string) | Target(name: string, level: string)

  function ReadDirective(text: string): Directive {
    var parts := Split(text, '=');
    if |parts| == 2 then Target(parts[0], parts[1]) else Default(text)
  }

  function ReadPieces(pieces: seq<string>): (r: seq<Directive>)
    ensures |r| == |pieces| && forall i :: 0 <= i < |r| ==> r[i] == ReadDirective(pieces[i])
  {
    seq(|pieces|, i requires 0 <= i < |pieces| => ReadDirective(pieces[i]))
  }

  function ReadFilter(text: string): seq<Directive> {
    ReadPieces(Split(text, ','))
  }

  lemma ReadPiecesAppend(a: seq<string>, b: seq<string>)
    ensures ReadPieces(a + b) == ReadPieces(a) + ReadPieces(b)
  {
  }

  /** A directive covers every target that its name is a prefix of. */
  predicate Covers(directive: Directive, target: string) {
    directive.Target? && directive.name <= target
  }

  /** The directive that decides a target: the longest name that covers it, and the last entry among
      equals. */
  function Winner(directives: seq<Directive>, target: string): (r: Option<Directive>)
    ensures r.Some? ==> Covers(r.value, target) && r.value in directives
  {
    if directives == [] then None
    else
      var rest, last := Winner(directives[..|directives| - 1], target), directives[|directives| - 1];
      if Covers(last, target) && (rest.None? || |rest.value.name| <= |last.name|) then Some(last) else rest
  }

  function LevelFor(directives: seq<Directive>, target: string): Option<string> {
    var winner := Winner(directives, target);
    if winner.None? then None else Some(winner.value.level)
  }

  function AsDirectives(targets: seq<TargetLevel>): (r: seq<Directive>)
    ensures |r| == |targets| && forall i :: 0 <= i < |r| ==> r[i] == Target(targets[i].0, targets[i].1.Name())
  {
    seq(|targets|, i requires 0 <= i < |targets| => Target(targets[i].0, targets[i].1.Name()))
  }

  /** The calls whose target is a valid identifier, in call order. */
  function Accepted(calls: seq<TargetLevel>): seq<TargetLevel> {
    if calls == [] then []
    else
      var last := calls[|calls| - 1];
      Accepted(calls[..|calls| - 1]) + if ValidIdentifier(last.0) then [last] else []
  }

  lemma {:induction false} AcceptedOfAppend(a: seq<TargetLevel>, b: seq<TargetLevel>)
    ensures Accepted(a + b) == Accepted(a) + Accepted(b)
    decreases |b|
  {
    if b == [] {
      assert a + b == a;
    } else {
      var last := b[|b| - 1];
      AcceptedOfAppend(a, b[..|b| - 1]);
      assert (a + b)[..|a + b| - 1] == a + b[..|b| - 1];
      assert (a + b)[|a + b| - 1] == last;
    }
  }

  lemma {:induction false} AcceptedSingle(call: TargetLevel)
    ensures Accepted([call]) == if ValidIdentifier(call.0) then [call] else []
  {
    assert [call][..0] == [];
    assert Accepted([]) == [];
  }

  /** Which calls are accepted, and in which order: those of any two stretches one after the other,
      and a single call iff its target is a valid identifier. */
  lemma {:induction false} AcceptedInCallOrder(a: seq<TargetLevel>, b: seq<TargetLevel>, call: TargetLevel)
    ensures Accepted(a + b) == Accepted(a) + Accepted(b)
    ensures Accepted([call]) == if ValidIdentifier(call.0) then [call] else []
  {
    AcceptedOfAppend(a, b);
    AcceptedSingle(call);
  }

  ghost predicate AllValid(targets: seq<TargetLevel>) {
    forall i :: 0 <= i < |targets| ==> ValidIdentifier(targets[i].0)
  }

  lemma {:induction false} BuildKeepsAccepted(defaultLevel: Level, calls: seq<TargetLevel>)
    ensures Build(defaultLevel, calls) == Config(defaultLevel, Accepted(calls)) && AllValid(Accepted(calls))
  {
    if calls != [] {
      BuildKeepsAccepted(defaultLevel, calls[..|calls| - 1]);
    }
  }

  lemma DependenciesAreValid()
    ensures AllValid(DEPENDENCIES)
  {
    forall i | 0 <= i < |DEPENDENCIES| ensures ValidIdentifier(DEPENDENCIES[i].0) {
      ShortAscii(DEPENDENCIES[i].0);
    }
  }

  lemma {:induction false} ShortAscii(s: string)
    requires forall i :: 0 <= i < |s| ==> IdentifierChar(s[i])
    ensures Utf8Len(s) == |s|
  {
    if s != [] {
      ShortAscii(s[..|s| - 1]);
    }
  }

  /** Valid identifiers are 1 to 128 characters, each a letter, a digit, '-', '.' or '_', said in
      code points. */
  lemma IdentifiersAre(s: string)
    ensures ValidIdentifier(s) <==>
            1 <= |s| <= 128 && forall i :: 0 <= i < |s| ==> InAlphabet(s[i] as int)
  {
    assert forall c: char :: IdentifierChar(c) <==> InAlphabet(c as int);
    if forall i :: 0 <= i < |s| ==> IdentifierChar(s[i]) {
      ShortAscii(s);
    }
  }

  predicate InAlphabet(u: int) {
    u in {45, 46, 95} || 48 <= u <= 57 || 65 <= u <= 90 || 97 <= u <= 122
  }

  lemma NameIsPlain(level: Level)
    ensures forall i :: 0 <= i < |level.Name()| ==> IdentifierChar(level.Name()[i])
  {
  }

  /** A rendered override holds no comma, and splitting it on '=' gives target and level back. */
  lemma TargetRoundTrip(t: TargetLevel)
    requires ValidIdentifier(t.0)
    ensures ',' !in RenderTarget(t)
    ensures ReadDirective(RenderTarget(t)) == Target(t.0, t.1.Name())
  {
    NameIsPlain(t.1);
    assert '=' !in t.0 && '=' !in t.1.Name();
    SplitAtFirstSep(t.0, t.1.Name(), '=');
    SplitWithoutSep(t.1.Name(), '=');
    assert RenderTarget(t) == t.0 + ['='] + t.1.Name();
  }

  lemma TargetsRoundTrip(targets: seq<TargetLevel>)
    requires AllValid(targets)
    ensures forall i :: 0 <= i < |targets| ==> ',' !in RenderTargets(targets)[i]
    ensures ReadPieces(RenderTargets(targets)) == AsDirectives(targets)
  {
    forall i | 0 <= i < |targets|
      ensures ',' !in RenderTargets(targets)[i] && ReadDirective(RenderTargets(targets)[i]) == AsDirectives(targets)[i]
    {
      TargetRoundTrip(targets[i]);
    }
  }

  lemma DefaultRoundTrip(level: Level)
    ensures ',' !in level.Name() && ReadDirective(level.Name()) == Default(level.Name())
  {
    NameIsPlain(level);
    SplitWithoutSep(level.Name(), '=');
  }

  /** Splitting the rendered filter gives the default, the overrides and the dependency block. */
  lemma RenderSplits(env: Option<string>, config: Config)
    requires AllValid(config.targetLevels)
    ensures Split(Render(env, config), ',') ==
            [ConfiguredLevel(env, config.defaultLevel).Name()] + RenderTargets(config.targetLevels)
            + RenderTargets(DEPENDENCIES)
  {
    var head := [ConfiguredLevel(env, config.defaultLevel).Name()] + RenderTargets(config.targetLevels);
    var block := RenderTargets(DEPENDENCIES);
    DefaultRoundTrip(ConfiguredLevel(env, config.defaultLevel));
    TargetsRoundTrip(config.targetLevels);
    DependenciesAreValid();
    TargetsRoundTrip(DEPENDENCIES);
    SplitOfJoin(block, ',');
    JoinAppend(head, Join(",", block));
    SplitOfJoinThen(head, Join(",", block), ',');
  }

  lemma {:induction false} JoinAppend(parts: seq<string>, last: string)
    requires parts != []
    ensures Join(",", parts + [last]) == Join(",", parts) + "," + last
  {
    if |parts| > 1 {
      JoinAppend(parts[1..], last);
      assert (parts + [last])[1..] == parts[1..] + [last];
    }
  }

  lemma PiecesRoundTrip(level: Level, targets: seq<TargetLevel>, block: seq<TargetLevel>)
    requires AllValid(targets) && AllValid(block)
    ensures ReadPieces([level.Name()] + RenderTargets(targets) + RenderTargets(block)) ==
            [Default(level.Name())] + AsDirectives(targets) + AsDirectives(block)
  {
    DefaultRoundTrip(level);
    TargetsRoundTrip(targets);
    TargetsRoundTrip(block);
    ReadPiecesAppend([level.Name()], RenderTargets(targets));
    ReadPiecesAppend([level.Name()] + RenderTargets(targets), RenderTargets(block));
    assert ReadPieces([level.Name()]) == [Default(level.Name())];
  }

  /** The dependency block, as it is written into every filter. */
  lemma DependencyBlock()
    ensures |DEPENDENCIES| == 11
    ensures RenderTarget(DEPENDENCIES[0]) == "rmcp=off"
    ensures RenderTarget(DEPENDENCIES[1]) == "hyper=warn"
    ensures RenderTarget(DEPENDENCIES[2]) == "hyper_util=warn"
    ensures RenderTarget(DEPENDENCIES[3]) == "h2=warn"
    ensures RenderTarget(DEPENDENCIES[4]) == "reqwest=warn"
    ensures RenderTarget(DEPENDENCIES[5]) == "tonic=warn"
    ensures RenderTarget(DEPENDENCIES[6]) == "tower=warn"
    ensures RenderTarget(DEPENDENCIES[7]) == "tower_http=warn"
    ensures RenderTarget(DEPENDENCIES[8]) == "axum=warn"
    ensures RenderTarget(DEPENDENCIES[9]) == "tungstenite=warn"
    ensures RenderTarget(DEPENDENCIES[10]) == "tokio_tungstenite=warn"
  {
  }

  /** For any builder calls, reading the rendered filter gives back the default level, exactly the
      accepted overrides in call order, and the fixed dependency block last. */
  lemma {:induction false} FilterRoundTrip(env: Option<string>, defaultLevel: Level, calls: seq<TargetLevel>)
    ensures ReadFilter(Render(env, Build(defaultLevel, calls))) ==
            [Default(if env == Some("error") then "error" else if env == Some("info") then "info"
                     else if env.Some? then "warn" else defaultLevel.Name())]
            + AsDirectives(Accepted(calls))
            + AsDirectives(DEPENDENCIES)
  {
    BuildKeepsAccepted(defaultLevel, calls);
    RenderSplits(env, Build(defaultLevel, calls));
    DependenciesAreValid();
    PiecesRoundTrip(ConfiguredLevel(env, defaultLevel), Accepted(calls), DEPENDENCIES);
  }

  lemma {:induction false} WinnerIs(directives: seq<Directive>, target: string, k: nat)
    requires k < |directives| && Covers(directives[k], target)
    requires forall i :: 0 <= i < |directives| && Covers(directives[i], target) ==>
               |directives[i].name| <= |directives[k].name|
    requires forall i :: k < i < |directives| && Covers(directives[i], target) ==>
               |directives[i].name| != |directives[k].name|
    ensures Winner(directives, target) == Some(directives[k])
    decreases |directives|
  {
    var n := |directives| - 1;
    var front := directives[..n];
    if k < n {
      WinnerIs(front, target, k);
    } else if Winner(front, target).Some? {
      var i :| 0 <= i < |front| && front[i] == Winner(front, target).value;
      assert directives[i] == front[i];
    }
  }

  /** The target itself, or a module below it. */
  predicate Under(name: string, target: string) {
    target == name || name + "::" <= target
  }

  /** No identifier reaches past the first colon: below a name, none is longer than the name. */
  lemma NoLongerIdentifier(name: string, other: string, target: string)
    requires Under(name, target) && ValidIdentifier(other) && other <= target
    ensures |other| <= |name|
    ensures |other| == |name| ==> other == name
  {
    assert name <= target by {
      assert name <= name + "::";
    }
    assert forall i :: 0 <= i < |other| ==> target[i] != ':';
    assert |target| > |name| ==> target[|name|] == (name + "::")[|name|];
    if |other| == |name| {
      assert other == target[..|other|] && name == target[..|name|];
    }
  }

  ghost predicate ValidNames(directives: seq<Directive>) {
    forall i :: 0 <= i < |directives| && directives[i].Target? ==> ValidIdentifier(directives[i].name)
  }

  /** Whatever valid directives come in front, a block decides everything under its entry `k`, if
      the name occurs once in it. */
  lemma BlockDecides(front: seq<Directive>, block: seq<TargetLevel>, k: nat, target: string)
    requires ValidNames(front) && AllValid(block) && k < |block| && Under(block[k].0, target)
    requires forall i :: k < i < |block| ==> block[i].0 != block[k].0
    ensures LevelFor(front + AsDirectives(block), target) == Some(block[k].1.Name())
  {
    var all := front + AsDirectives(block);
    var at := |front| + k;
    assert block[k].0 <= block[k].0 + "::";
    forall i | 0 <= i < |all| && Covers(all[i], target)
      ensures |all[i].name| <= |all[at].name| && (i > at ==> |all[i].name| != |all[at].name|)
    {
      assert i >= |front| ==> all[i].name == block[i - |front|].0;
      NoLongerIdentifier(block[k].0, all[i].name, target);
    }
    WinnerIs(all, target, at);
  }

  lemma BlockFixesLevel(front: seq<Directive>, k: nat, target: string)
    requires ValidNames(front) && k < |DEPENDENCIES| && Under(DEPENDENCIES[k].0, target)
    ensures LevelFor(front + AsDirectives(DEPENDENCIES), target)
            == Some(if DEPENDENCIES[k].0 == "rmcp" then "off" else "warn")
  {
    DependencyLevel(k);
    DependenciesAreValid();
    forall i | k < i < |DEPENDENCIES| ensures DEPENDENCIES[i].0 != DEPENDENCIES[k].0 {
      DependenciesAreDistinct(i, k);
    }
    BlockDecides(front, DEPENDENCIES, k, target);
  }

  lemma FilterEndsInBlock(env: Option<string>, defaultLevel: Level, calls: seq<TargetLevel>)
    returns (front: seq<Directive>)
    ensures ValidNames(front)
    ensures ReadFilter(Render(env, Build(defaultLevel, calls))) == front + AsDirectives(DEPENDENCIES)
  {
    FilterRoundTrip(env, defaultLevel, calls);
    BuildKeepsAccepted(defaultLevel, calls);
    front := [Default(ConfiguredLevel(env, defaultLevel).Name())] + AsDirectives(Accepted(calls));
  }

  /** No sequence of overrides changes the level of a listed dependency or of any module below it,
      though an override may name a prefix of such a module, or the dependency itself. */
  lemma {:induction false} DependencyLevelsAreFixed(
    env: Option<string>, defaultLevel: Level, calls: seq<TargetLevel>, k: nat, target: string)
    requires k < |DEPENDENCIES| && Under(DEPENDENCIES[k].0, target)
    ensures LevelFor(ReadFilter(Render(env, Build(defaultLevel, calls))), target)
            == Some(if DEPENDENCIES[k].0 == "rmcp" then "off" else "warn")
  {
    var front := FilterEndsInBlock(env, defaultLevel, calls);
    BlockFixesLevel(front, k, target);
  }

  lemma DependencyLevel(k: nat)
    requires k < |DEPENDENCIES|
    ensures DEPENDENCIES[k].1.Name() == if DEPENDENCIES[k].0 == "rmcp" then "off" else "warn"
  {
    if k > 0 {
      DependenciesAreDistinct(k, 0);
    }
  }

  lemma DependenciesAreDistinct(i: nat, k: nat)
    requires k < i < |DEPENDENCIES|
    ensures DEPENDENCIES[i].0 != DEPENDENCIES[k].0
  {
    var a, b := DEPENDENCIES[i].0, DEPENDENCIES[k].0;
    assert |a| != |b| || a[0] != b[0] || (|a| > 2 && a[2] != b[2]);
  }
}
