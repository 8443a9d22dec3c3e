/**
 The five kinds of effects, the state keys each depends on, and the pairwise
 conflict check (`effects/effect.go` and the effect types beside it).
 */
module Effects {
  import opened Basics
  import opened Accounts

  datatype Event = Event(kind: Bytes, attributes: map<Bytes, Bytes>)

  /**
   `Read.hasDest` is whether the destination pointer is set. `Write.value` is what
   the store receives.
   */
  datatype Effect =
    | Read(store: Bytes, key: Bytes, hasDest: bool)
    | Write(store: Bytes, key: Bytes, value: Bytes)
    | Delete(store: Bytes, key: Bytes)
    | Transfer(from: AccountName, to: AccountName, amount: seq<Coin>)
    | Emit(event: Event)

  datatype DependencyType = AccountDependency | BalanceDependency | GenericDependency

  datatype Dependency = Dependency(kind: DependencyType, key: Bytes, readOnly: bool)

  /** "balance/" */
  const BALANCE_PREFIX: Bytes := [98, 97, 108, 97, 110, 99, 101, 47]

  /** "event/" */
  const EVENT_PREFIX: Bytes := [101, 118, 101, 110, 116, 47]

  function FullKey(store: Bytes, key: Bytes): Bytes {
    store + [SLASH] + key
  }

  function BalanceDependencyKey(account: AccountName, denom: Bytes): Bytes {
    BALANCE_PREFIX + account + [SLASH] + denom
  }

  /** The `Validate` method of each effect type. */
  predicate IsValid(e: Effect) {
    match e
    case Read(store, key, hasDest) => store != [] && key != [] && hasDest
    case Write(store, key, _) => store != [] && key != []
    case Delete(store, key) => store != [] && key != []
    case Transfer(from, to, amount) =>
      IsValidName(from) && IsValidName(to) && ValidCoins(amount) && AllPositive(amount)
    case Emit(event) => event.kind != []
  }

  /** The `Key` method of each effect type: the primary key used for conflict detection. */
  function PrimaryKey(e: Effect): Bytes {
    match e
    case Read(store, key, _) => FullKey(store, key)
    case Write(store, key, _) => FullKey(store, key)
    case Delete(store, key) => FullKey(store, key)
    case Transfer(from, _, _) => from
    case Emit(event) => EVENT_PREFIX + event.kind
  }

  function CoinDependencies(from: AccountName, to: AccountName, coins: seq<Coin>): seq<Dependency> {
    if coins == [] then []
    else
      CoinDependencies(from, to, coins[..|coins| - 1])
      + [Dependency(BalanceDependency, BalanceDependencyKey(from, coins[|coins| - 1].denom), false),
         Dependency(BalanceDependency, BalanceDependencyKey(to, coins[|coins| - 1].denom), false)]
  }

  /** The `Dependencies` method of each effect type. */
  function Dependencies(e: Effect): seq<Dependency> {
    match e
    case Read(store, key, _) => [Dependency(GenericDependency, FullKey(store, key), true)]
    case Write(store, key, _) => [Dependency(GenericDependency, FullKey(store, key), false)]
    case Delete(store, key) => [Dependency(GenericDependency, FullKey(store, key), false)]
    case Transfer(from, to, amount) =>
      [Dependency(AccountDependency, from, false), Dependency(AccountDependency, to, false)]
      + CoinDependencies(from, to, amount)
    case Emit(_) => []
  }

  method TransferDependencies(from: AccountName, to: AccountName, amount: seq<Coin>) returns (deps: seq<Dependency>)
    ensures deps == Dependencies(Transfer(from, to, amount))
  {
    deps := [Dependency(AccountDependency, from, false)];
    deps := deps + [Dependency(AccountDependency, to, false)];
    ghost var accounts := deps;
    for i := 0 to |amount|
      invariant deps == accounts + CoinDependencies(from, to, amount[..i])
    {
      assert amount[..i + 1][..i] == amount[..i];
      deps := deps + [Dependency(BalanceDependency, BalanceDependencyKey(from, amount[i].denom), false)];
      deps := deps + [Dependency(BalanceDependency, BalanceDependencyKey(to, amount[i].denom), false)];
    }
    assert amount[..|amount|] == amount;
  }

  function KeysIn(deps: seq<Dependency>, readOnly: bool): set<Bytes> {
    set d | d in deps && d.readOnly == readOnly :: d.key
  }

  function ReadKeys(e: Effect): set<Bytes> {
    KeysIn(Dependencies(e), true)
  }

  function WriteKeys(e: Effect): set<Bytes> {
    KeysIn(Dependencies(e), false)
  }

  /** Some state key is used by both effects and written by at least one. */
  ghost predicate Conflicting(a: Effect, b: Effect) {
    || WriteKeys(a) * (ReadKeys(b) + WriteKeys(b)) != {}
    || ReadKeys(a) * WriteKeys(b) != {}
  }

  datatype Conflict = ReadWrite | WriteWrite

  predicate IsWriter(e: Effect) {
    e.Write? || e.Transfer? || e.Delete?
  }

  /** The pairwise check on primary keys. */
  function DetectConflict(a: Effect, b: Effect): Option<Conflict> {
    if PrimaryKey(a) != PrimaryKey(b) then None
    else if IsWriter(a) && IsWriter(b) then Some(WriteWrite)
    else if (a.Read? && IsWriter(b)) || (IsWriter(a) && b.Read?) then Some(ReadWrite)
    else None
  }

  /** Reads and writers declare a dependency on their primary key, of the matching kind. */
  lemma {:induction false} PrimaryKeyDeclared(e: Effect)
    ensures IsWriter(e) ==> PrimaryKey(e) in WriteKeys(e)
    ensures e.Read? ==> PrimaryKey(e) in ReadKeys(e)
  {
    if IsWriter(e) || e.Read? {
      var d := Dependencies(e)[0];
      assert d in Dependencies(e) && d.key == PrimaryKey(e) && d.readOnly == e.Read?;
    }
  }

  /** What the pairwise check finds, the declared dependencies also show. */
  lemma {:induction false} DetectedConflictIsDeclared(a: Effect, b: Effect)
    requires DetectConflict(a, b).Some?
    ensures Conflicting(a, b)
  {
    PrimaryKeyDeclared(a);
    PrimaryKeyDeclared(b);
    var k := PrimaryKey(a);
    if IsWriter(a) {
      assert k in WriteKeys(a) * (ReadKeys(b) + WriteKeys(b));
    } else {
      assert k in ReadKeys(a) * WriteKeys(b);
    }
  }
}
