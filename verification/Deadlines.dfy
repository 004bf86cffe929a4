/** Deadlines of workflows and of the sub-workflows they call. */
module Deadlines {
  import opened Wrappers
  import opened Basics

  /** `maxTimeout` and `timeout` in seconds; a value of 0 or less switches either off. */
  datatype Config = Config(maxTimeout: int, timeout: int)

  /** One level of a chain of calls: its start, its own timeout setting, and whether its caller goes on at once. */
  datatype Level = Level(startMs: int, ownTimeout: Option<int>, detached: bool)

  /** A timeout clamped to the configurable maximum. */
  function Cap(seconds: int, config: Config): int {
    if config.maxTimeout > 0 then Min(seconds, config.maxTimeout) else seconds
  }

  /** `determineWorkflowDeadline`. */
  function OwnDeadline(level: Level, config: Config): Option<int> {
    if level.ownTimeout.Some? then
      if level.ownTimeout.value <= 0 then None
      else Some(level.startMs + Cap(level.ownTimeout.value, config) * 1000)
    else if config.timeout > 0 then Some(level.startMs + Cap(config.timeout, config) * 1000)
    else None
  }

  /** `resolveSubworkflowDeadline`. */
  function Resolve(own: Option<int>, parent: Option<int>, detached: bool): Option<int> {
    if detached then own
    else if parent.Some? && own.Some? then Some(Min(parent.value, own.value))
    else if parent.Some? then parent else own
  }

  /** A limit of so many seconds applies to the workflow: its own or else the default one, and the maximum. */
  predicate Applies(level: Level, config: Config, seconds: int) {
    || (seconds > 0 && seconds == (if level.ownTimeout.Some? then level.ownTimeout.value else config.timeout))
    || (seconds > 0 && seconds == config.maxTimeout)
  }

  /**
    A workflow of its own has a deadline iff its setting, or without one the default, is
    positive; then it is the tightest of the limits that apply.
   */
  lemma OwnDeadlineIsTightestLimit(level: Level, config: Config)
    ensures var d := OwnDeadline(level, config);
            && (d.Some? <==> if level.ownTimeout.Some? then level.ownTimeout.value > 0 else config.timeout > 0)
            && (d.Some? ==>
                  && (exists s :: Applies(level, config, s) && d.value == level.startMs + 1000 * s)
                  && (forall s :: Applies(level, config, s) ==> d.value <= level.startMs + 1000 * s))
  {
    var limit := if level.ownTimeout.Some? then level.ownTimeout.value else config.timeout;
    if limit > 0 {
      assert Applies(level, config, Cap(limit, config));
    }
  }

  /** The deadline at the end of a chain of calls below a workflow with deadline `root`. */
  function DeadlineBelow(root: Option<int>, chain: seq<Level>, config: Config): Option<int>
    decreases |chain|
  {
    if chain == [] then root
    else
      var last := chain[|chain| - 1];
      Resolve(OwnDeadline(last, config), DeadlineBelow(root, chain[..|chain| - 1], config), last.detached)
  }

  /** The last detached level starts a chain of its own; before any, the root belongs to it. */
  function AwaitedFrom(chain: seq<Level>): (r: int)
    ensures -1 <= r < |chain|
    decreases |chain|
  {
    if chain == [] then -1
    else if chain[|chain| - 1].detached then |chain| - 1
    else AwaitedFrom(chain[..|chain| - 1])
  }

  /** The deadlines that bind the end of the chain: the own ones since the last detachment, and maybe the root's. */
  ghost predicate Binds(root: Option<int>, chain: seq<Level>, config: Config, deadline: int) {
    || (AwaitedFrom(chain) < 0 && root == Some(deadline))
    || exists i :: 0 <= i < |chain| && AwaitedFrom(chain) <= i && OwnDeadline(chain[i], config) == Some(deadline)
  }

  /**
    Nested deadlines: however deep the chain, the deadline is the earliest of those that bind,
    so an awaited descendant never outlives an ancestor, and a detached one forgets all above it.
   */
  lemma {:induction false} DeadlineIsEarliestBinding(root: Option<int>, chain: seq<Level>, config: Config)
    ensures var d := DeadlineBelow(root, chain, config);
            && (d.Some? ==> Binds(root, chain, config, d.value))
            && (forall x :: Binds(root, chain, config, x) ==> d.Some? && d.value <= x)
    decreases |chain|
  {
    if chain != [] {
      var init, last := chain[..|chain| - 1], chain[|chain| - 1];
      DeadlineIsEarliestBinding(root, init, config);
      assert forall i :: 0 <= i < |init| ==> init[i] == chain[i];
      var own := OwnDeadline(last, config);
      assert own.Some? ==> OwnDeadline(chain[|init|], config) == Some(own.value) && Binds(root, chain, config, own.value);
      if !last.detached {
        forall x | Binds(root, init, config, x) ensures Binds(root, chain, config, x) {
          if i :| 0 <= i < |init| && AwaitedFrom(init) <= i && OwnDeadline(init[i], config) == Some(x) {
            assert OwnDeadline(chain[i], config) == Some(x);
          }
        }
        forall x | Binds(root, chain, config, x) ensures own == Some(x) || Binds(root, init, config, x) {
          if i :| 0 <= i < |chain| && AwaitedFrom(chain) <= i && OwnDeadline(chain[i], config) == Some(x) {
            if i < |init| {
              assert OwnDeadline(init[i], config) == Some(x);
            }
          }
        }
      }
    }
  }
}
