/** Which runs have a block in progress, and what executes only then (`runtime/application.go`). */
module Openings {
  import opened Basics
  import opened Accounts
  import opened Effects
  import opened Codecs
  import opened Application
  import opened Wiring

  /** A header with a height, a chain and a time. */
  predicate Opens(input: Input) {
    input.BeginBlock? && input.header.height > 0 && |input.header.chainId| > 0 && input.header.hasTime
  }

  predicate Closes(input: Input) {
    input.Commit? && input.saved
  }

  /** No commit is saved from the i-th input on. */
  ghost predicate StaysOpen(inputs: seq<Input>, i: nat) {
    forall k :: i <= k < |inputs| ==> !Closes(inputs[k])
  }

  /** A block was in progress or begun, and not committed since. */
  ghost predicate IsOpen(app: App, inputs: seq<Input>) {
    || (app.inBlock && StaysOpen(inputs, 0))
    || exists j :: 0 <= j < |inputs| && Opens(inputs[j]) && StaysOpen(inputs, j)
  }

  lemma {:induction false} StepOpens(env: Environment, app: App, input: Input)
    requires IsWired(app) && IsFaithful(env.codec) && IsFaithful(env.balances)
    ensures AfterInput(env, app, input).inBlock <==> !Closes(input) && (app.inBlock || Opens(input))
  {
    hide AfterLookups, AfterEffects, PassesGate;
    match input
    case BeginBlock(_) =>
    case Check(tx, fetched) => LookupsKeepBlock(env, app, tx, fetched);
    case Execute(tx, fetched, routed) =>
      LookupsKeepBlock(env, app, tx, fetched);
      if routed.Some? {
        EffectsKeepBlock(env, AfterLookups(env, app, tx, fetched), routed.value);
      }
    case Commit(saved) => CommitStaysWired(env, app, saved);
  }

  lemma {:induction false} LookupsKeepBlock(env: Environment, app: App, tx: Transaction, fetched: seq<Bytes>)
    ensures AfterLookups(env, app, tx, fetched).inBlock == app.inBlock
  {
  }

  lemma {:induction false} EffectsKeepBlock(env: Environment, app: App, effects: seq<Effect>)
    ensures AfterEffects(env, app, effects).0.inBlock == app.inBlock
  {
  }

  lemma {:induction false} OpenLast(app: App, inputs: seq<Input>)
    requires inputs != []
    ensures var n := |inputs| - 1;
            IsOpen(app, inputs) <==> !Closes(inputs[n]) && (IsOpen(app, inputs[..n]) || Opens(inputs[n]))
  {
    var n := |inputs| - 1;
    forall i: nat | i <= n ensures StaysOpen(inputs, i) <==> StaysOpen(inputs[..n], i) && !Closes(inputs[n]) {
      if StaysOpen(inputs[..n], i) && !Closes(inputs[n]) {
        forall k | i <= k < |inputs| ensures !Closes(inputs[k]) {
          assert k < n ==> inputs[..n][k] == inputs[k];
        }
      }
      if StaysOpen(inputs, i) {
        forall k | i <= k < n ensures !Closes(inputs[..n][k]) {
          assert inputs[..n][k] == inputs[k];
        }
      }
    }
    if IsOpen(app, inputs[..n]) && !Closes(inputs[n]) && !(app.inBlock && StaysOpen(inputs[..n], 0)) {
      var j :| 0 <= j < n && Opens(inputs[..n][j]) && StaysOpen(inputs[..n], j);
      assert Opens(inputs[j]) && StaysOpen(inputs, j);
    }
    if Opens(inputs[n]) {
      assert StaysOpen(inputs, n);
    }
    if j :| 0 <= j < n && Opens(inputs[j]) && StaysOpen(inputs, j) {
      assert Opens(inputs[..n][j]) && StaysOpen(inputs[..n], j);
    }
  }

  /** A block is in progress exactly from a valid header to the next saved commit. */
  lemma {:induction false} OpenIff(env: Environment, app: App, inputs: seq<Input>)
    requires IsWired(app) && IsFaithful(env.codec) && IsFaithful(env.balances)
    ensures Run(env, app, inputs).inBlock <==> IsOpen(app, inputs)
  {
    hide AfterInput, IsWired, IsFaithful;
    if inputs == [] {
      assert StaysOpen(inputs, 0);
    } else {
      hide IsOpen;
      var n := |inputs| - 1;
      OpenIff(env, app, inputs[..n]);
      RunStaysWired(env, app, inputs[..n]);
      StepOpens(env, Run(env, app, inputs[..n]), inputs[n]);
      OpenLast(app, inputs);
    }
  }

  /** A transaction executes only between a valid header and the next saved commit. */
  lemma {:induction false} ExecutesInOpenBlock(env: Environment, app: App, inputs: seq<Input>, i: nat)
    requires IsWired(app) && IsFaithful(env.codec) && IsFaithful(env.balances) && i < |inputs| && inputs[i].Execute?
    requires AfterTx(env, Run(env, app, inputs[..i]), inputs[i].tx, inputs[i].fetched, inputs[i].routed).1 == Executed
    ensures IsOpen(app, inputs[..i])
  {
    hide AfterLookups, AfterEffects, IsOpen, IsWired, IsFaithful, Run;
    OpenIff(env, app, inputs[..i]);
  }
}
