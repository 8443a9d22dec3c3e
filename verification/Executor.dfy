/** Sequential execution of effects against the two stores (`effects/executor.go`). */
module Executor {
  import opened Basics
  import opened Accounts
  import opened Effects

  /** The key store and the balances. */
  datatype State = State(store: map<Bytes, Bytes>, balances: map<(AccountName, Bytes), Uint64>)

  /** What a run leaves: the state, also after a failure, the events, and whether it succeeded. */
  datatype Outcome = Outcome(state: State, events: seq<Event>, ok: bool)

  function Balance(s: State, account: AccountName, denom: Bytes): Uint64 {
    if (account, denom) in s.balances then s.balances[(account, denom)] else 0
  }

  function SetBalance(s: State, account: AccountName, denom: Bytes, amount: Uint64): State {
    s.(balances := s.balances[(account, denom) := amount])
  }

  /** One coin of `executeTransfer`: debit, then credit. A refused credit leaves the debit in place. */
  function MoveCoin(s: State, from: AccountName, to: AccountName, coin: Coin): (State, bool) {
    if Balance(s, from, coin.denom) < coin.amount then (s, false)
    else
      var debited := SetBalance(s, from, coin.denom, Balance(s, from, coin.denom) - coin.amount);
      if Balance(debited, to, coin.denom) > MAX_UINT64 - coin.amount then (debited, false)
      else (SetBalance(debited, to, coin.denom, Balance(debited, to, coin.denom) + coin.amount), true)
  }

  /** `executeTransfer`: coin by coin, stopping at the first refusal. */
  function TransferCoins(s: State, from: AccountName, to: AccountName, coins: seq<Coin>): (State, bool)
    decreases |coins|
  {
    if coins == [] then (s, true)
    else
      var moved := MoveCoin(s, from, to, coins[0]);
      if moved.1 then TransferCoins(moved.0, from, to, coins[1..]) else moved
  }

  /** `executeEffect` */
  function ApplyEffect(s: State, e: Effect): Outcome {
    if !IsValid(e) then Outcome(s, [], false)
    else
      match e
      case Read(store, key, _) => Outcome(s, [], FullKey(store, key) in s.store)
      case Write(store, key, value) => Outcome(s.(store := s.store[FullKey(store, key) := value]), [], true)
      case Delete(store, key) => Outcome(s.(store := s.store - {FullKey(store, key)}), [], true)
      case Transfer(from, to, amount) =>
        var (s', ok) := TransferCoins(s, from, to, amount);
        Outcome(s', [], ok)
      case Emit(event) => Outcome(s, [event], true)
  }

  /** `Execute`: the effects in order, up to the first that fails. */
  function ApplyAll(s: State, effects: seq<Effect>): Outcome {
    if effects == [] then Outcome(s, [], true)
    else
      var before := ApplyAll(s, effects[..|effects| - 1]);
      if !before.ok then before
      else
        var last := ApplyEffect(before.state, effects[|effects| - 1]);
        Outcome(last.state, before.events + last.events, last.ok)
  }

  lemma {:induction false} FailureStays(s: State, effects: seq<Effect>, i: nat)
    requires i <= |effects| && !ApplyAll(s, effects[..i]).ok
    ensures ApplyAll(s, effects) == ApplyAll(s, effects[..i])
    decreases |effects| - i
  {
    if i == |effects| {
      assert effects[..i] == effects;
    } else {
      assert effects[..i + 1][..i] == effects[..i];
      FailureStays(s, effects, i + 1);
    }
  }

  class Executor {
    var store: map<Bytes, Bytes>
    var balances: map<(AccountName, Bytes), Uint64>

    ghost function Contents(): State
      reads this
    {
      State(store, balances)
    }

    method GetBalance(account: AccountName, denom: Bytes) returns (amount: Uint64)
      ensures amount == Balance(Contents(), account, denom)
    {
      amount := if (account, denom) in balances then balances[(account, denom)] else 0;
    }

    /** The coin loop of `executeTransfer`. Coins already moved stay moved when a later one fails. */
    method ExecuteTransfer(from: AccountName, to: AccountName, amount: seq<Coin>) returns (ok: bool)
      modifies this
      ensures (Contents(), ok) == TransferCoins(old(Contents()), from, to, amount)
    {
      for i := 0 to |amount|
        invariant TransferCoins(Contents(), from, to, amount[i..]) == TransferCoins(old(Contents()), from, to, amount)
      {
        var coin := amount[i];
        assert amount[i..][1..] == amount[i + 1..];
        var have := GetBalance(from, coin.denom);
        if have < coin.amount {
          return false;
        }
        balances := balances[(from, coin.denom) := have - coin.amount];
        var held := GetBalance(to, coin.denom);
        if held > MAX_UINT64 - coin.amount {
          return false;
        }
        balances := balances[(to, coin.denom) := held + coin.amount];
      }
      return true;
    }

    method ExecuteEffect(e: Effect, events: seq<Event>) returns (ok: bool, events': seq<Event>)
      modifies this
      ensures var r := ApplyEffect(old(Contents()), e);
              Contents() == r.state && ok == r.ok && events' == events + r.events
    {
      events' := events;
      if !IsValid(e) {
        return false, events;
      }
      match e {
        case Read(storeName, key, _) =>
          ok := FullKey(storeName, key) in store;
        case Write(storeName, key, value) =>
          store := store[FullKey(storeName, key) := value];
          ok := true;
        case Delete(storeName, key) =>
          store := store - {FullKey(storeName, key)};
          ok := true;
        case Transfer(from, to, amount) =>
          ok := ExecuteTransfer(from, to, amount);
        case Emit(event) =>
          events' := events + [event];
          ok := true;
      }
    }

    method Execute(effects: seq<Effect>) returns (ok: bool, events: seq<Event>)
      modifies this
      ensures Outcome(Contents(), events, ok) == ApplyAll(old(Contents()), effects)
    {
      events := [];
      for i := 0 to |effects|
        invariant Outcome(Contents(), events, true) == ApplyAll(old(Contents()), effects[..i])
      {
        assert effects[..i + 1][..i] == effects[..i];
        ok, events := ExecuteEffect(effects[i], events);
        if !ok {
          FailureStays(old(Contents()), effects, i + 1);
          return;
        }
      }
      assert effects[..|effects|] == effects;
      ok := true;
    }
  }
}
