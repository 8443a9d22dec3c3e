/**
 The executor as `NewApplication` wires it (`runtime/application.go`): raw effects go to the state store,
 and transfers go to the balance store, a write-back cache above that same state store.
 */
module SharedStore {
  import opened Basics
  import opened Accounts
  import opened Effects
  import opened Codecs
  import opened Balances
  import opened Records
  import opened Cache
  import opened MemoryStore
  import opened CachedStore
  import opened Agreement

  type Data = map<Bytes, Bytes>

  /** The balance cache, and the state store below it that raw effects use. */
  type Bank = Store<Balance>

  datatype Outcome = Outcome(bank: Bank, events: seq<Event>, ok: bool)

  // ---- Execution ----

  /** `BalanceStore.Get`: a zero balance where there is none. */
  function FetchFrom(codec: Codec<Balance>, s: Bank, account: AccountName, denom: Bytes): (Bank, Option<Balance>) {
    if !IsValidName(account) || denom == [] then (s, None)
    else
      var k := BalanceKey(account, denom);
      var got := GetResult(codec, s, k);
      (AfterGet(codec, s, k),
       if got.Ok? then Some(got.value) else if got.error == NotFound then Some(Balance(account, denom, 0)) else None)
  }

  /** `BalanceStore.Set`: under the key of the account that the record names. */
  function SaveTo(s: Bank, b: Balance): (Bank, bool) {
    if b.IsValid() then (AfterPut(s, BalanceKey(b.account, b.denom), Some(b)), true) else (s, false)
  }

  /** A fetched balance less the coin is saved, unless there is too little. */
  function Pay(s: Bank, b: Option<Balance>, coin: Coin): (Bank, bool) {
    if b.None? || b.value.amount < coin.amount then (s, false)
    else SaveTo(s, b.value.(amount := b.value.amount - coin.amount))
  }

  /** A fetched balance and the coin is saved, unless that overflows. */
  function Receive(s: Bank, b: Option<Balance>, coin: Coin): (Bank, bool) {
    if b.None? || b.value.amount > MAX_UINT64 - coin.amount then (s, false)
    else SaveTo(s, b.value.(amount := b.value.amount + coin.amount))
  }

  /** `SubAmount` */
  function Debit(codec: Codec<Balance>, s: Bank, account: AccountName, coin: Coin): (Bank, bool) {
    if coin.amount == 0 then (s, true)
    else
      var (t, b) := FetchFrom(codec, s, account, coin.denom);
      Pay(t, b, coin)
  }

  /** `AddAmount` */
  function Credit(codec: Codec<Balance>, s: Bank, account: AccountName, coin: Coin): (Bank, bool) {
    if coin.amount == 0 then (s, true)
    else
      var (t, b) := FetchFrom(codec, s, account, coin.denom);
      Receive(t, b, coin)
  }

  function MoveCoin(codec: Codec<Balance>, s: Bank, from: AccountName, to: AccountName, coin: Coin): (Bank, bool) {
    var (debited, ok) := Debit(codec, s, from, coin);
    if ok then Credit(codec, debited, to, coin) else (debited, false)
  }

  function TransferCoins(codec: Codec<Balance>, s: Bank, from: AccountName, to: AccountName,
                         coins: seq<Coin>): (Bank, bool)
    decreases |coins|
  {
    if coins == [] then (s, true)
    else
      var (moved, ok) := MoveCoin(codec, s, from, to, coins[0]);
      if ok then TransferCoins(codec, moved, from, to, coins[1..]) else (moved, false)
  }

  /** Raw effects read and write the state store, whatever the cache holds. */
  function ApplyEffect(codec: Codec<Balance>, s: Bank, e: Effect): Outcome {
    if !IsValid(e) then Outcome(s, [], false)
    else
      match e
      case Read(store, key, _) => Outcome(s, [], FullKey(store, key) in s.backing)
      case Write(store, key, value) =>
        Outcome(s.(backing := s.backing[FullKey(store, key) := value]), [], true)
      case Delete(store, key) => Outcome(s.(backing := s.backing - {FullKey(store, key)}), [], true)
      case Transfer(from, to, amount) =>
        var (s', ok) := TransferCoins(codec, s, from, to, amount);
        Outcome(s', [], ok)
      case Emit(event) => Outcome(s, [event], true)
  }

  function ApplyAll(codec: Codec<Balance>, s: Bank, effects: seq<Effect>): Outcome {
    if effects == [] then Outcome(s, [], true)
    else
      var before := ApplyAll(codec, s, effects[..|effects| - 1]);
      if !before.ok then before
      else
        var last := ApplyEffect(codec, before.bank, effects[|effects| - 1]);
        Outcome(last.bank, before.events + last.events, last.ok)
  }

  lemma {:induction false} FailureStays(codec: Codec<Balance>, s: Bank, effects: seq<Effect>, i: nat)
    requires i <= |effects| && !ApplyAll(codec, s, effects[..i]).ok
    ensures ApplyAll(codec, s, effects) == ApplyAll(codec, s, effects[..i])
    decreases |effects| - i
  {
    if i == |effects| {
      assert effects[..i] == effects;
    } else {
      assert effects[..i + 1][..i] == effects[..i];
      FailureStays(codec, s, effects, i + 1);
    }
  }

  lemma {:induction false} MoveIsCredit(codec: Codec<Balance>, s: Bank, from: AccountName, to: AccountName, coin: Coin,
                                        paid: Bank)
    requires Debit(codec, s, from, coin) == (paid, true)
    ensures MoveCoin(codec, s, from, to, coin) == Credit(codec, paid, to, coin)
  {
  }

  lemma {:induction false} TransfersRest(codec: Codec<Balance>, s: Bank, from: AccountName, to: AccountName,
                                         coins: seq<Coin>, u: Bank)
    requires coins != [] && MoveCoin(codec, s, from, to, coins[0]) == (u, true)
    ensures TransferCoins(codec, s, from, to, coins) == TransferCoins(codec, u, from, to, coins[1..])
  {
  }

  /** The executor over a balance store and the state store below it. */
  class SharedExecutor {
    const balances: CachedObjectStore<Balance>

    constructor (balances: CachedObjectStore<Balance>)
      ensures this.balances == balances
    {
      this.balances := balances;
    }

    ghost predicate Valid()
      reads balances
    {
      balances.Valid() && !balances.closed
    }

    ghost function Contents(): Bank
      reads balances.cache.l1, balances.cache.l2, balances.backing
    {
      balances.Contents()
    }

    method Fetch(account: AccountName, denom: Bytes) returns (b: Option<Balance>)
      requires Valid()
      modifies balances.cache.l1, balances.cache.l2
      ensures (Contents(), b) == FetchFrom(balances.codec, old(Contents()), account, denom)
    {
      if !IsValidName(account) || denom == [] {
        return None;
      }
      var got := balances.Get(BalanceKey(account, denom));
      if got.Ok? {
        return Some(got.value);
      }
      if got.error == NotFound {
        return Some(Balance(account, denom, 0));
      }
      return None;
    }

    method Save(b: Balance) returns (ok: bool)
      requires Valid()
      modifies balances.cache.l1
      ensures (Contents(), ok) == SaveTo(old(Contents()), b)
    {
      if !b.IsValid() {
        return false;
      }
      BalanceKeyHasSlash(b.account, b.denom);
      ok := balances.Put(BalanceKey(b.account, b.denom), Some(b));
    }

    method SubBalance(account: AccountName, coin: Coin) returns (ok: bool)
      requires Valid()
      modifies balances.cache.l1, balances.cache.l2
      ensures (Contents(), ok) == Debit(balances.codec, old(Contents()), account, coin)
    {
      hide FetchFrom, SaveTo;
      if coin.amount == 0 {
        return true;
      }
      var b := Fetch(account, coin.denom);
      if b.None? || b.value.amount < coin.amount {
        return false;
      }
      ok := Save(b.value.(amount := b.value.amount - coin.amount));
    }

    method AddBalance(account: AccountName, coin: Coin) returns (ok: bool)
      requires Valid()
      modifies balances.cache.l1, balances.cache.l2
      ensures (Contents(), ok) == Credit(balances.codec, old(Contents()), account, coin)
    {
      hide FetchFrom, SaveTo;
      if coin.amount == 0 {
        return true;
      }
      var b := Fetch(account, coin.denom);
      if b.None? || b.value.amount > MAX_UINT64 - coin.amount {
        return false;
      }
      ok := Save(b.value.(amount := b.value.amount + coin.amount));
    }

    method ExecuteTransfer(from: AccountName, to: AccountName, amount: seq<Coin>) returns (ok: bool)
      requires Valid()
      modifies balances.cache.l1, balances.cache.l2
      ensures (Contents(), ok) == TransferCoins(balances.codec, old(Contents()), from, to, amount)
    {
      for i := 0 to |amount|
        invariant TransferCoins(balances.codec, Contents(), from, to, amount[i..])
                  == TransferCoins(balances.codec, old(Contents()), from, to, amount)
      {
        assert amount[i..][1..] == amount[i + 1..];
        ok := SubBalance(from, amount[i]);
        if ok {
          ok := AddBalance(to, amount[i]);
        }
        if !ok {
          return;
        }
      }
      return true;
    }

    method ExecuteEffect(e: Effect, events: seq<Event>) returns (ok: bool, events': seq<Event>)
      requires Valid()
      modifies balances.cache.l1, balances.cache.l2, balances.backing
      ensures var r := ApplyEffect(balances.codec, old(Contents()), e);
              Contents() == r.bank && ok == r.ok && events' == events + r.events
    {
      events' := events;
      if !IsValid(e) {
        return false, events;
      }
      match e {
        case Read(store, key, _) =>
          var has := balances.backing.Has(FullKey(store, key));
          ok := has.Ok? && has.value;
        case Write(store, key, value) =>
          ok := balances.backing.Set(FullKey(store, key), value);
        case Delete(store, key) =>
          ok := balances.backing.Delete(FullKey(store, key));
        case Transfer(from, to, amount) =>
          ok := ExecuteTransfer(from, to, amount);
        case Emit(event) =>
          events' := events + [event];
          ok := true;
      }
    }

    method Execute(effects: seq<Effect>) returns (ok: bool, events: seq<Event>)
      requires Valid()
      modifies balances.cache.l1, balances.cache.l2, balances.backing
      ensures Outcome(Contents(), events, ok) == ApplyAll(balances.codec, old(Contents()), effects)
    {
      events := [];
      for i := 0 to |effects|
        invariant Outcome(Contents(), events, true) == ApplyAll(balances.codec, old(Contents()), effects[..i])
      {
        assert effects[..i + 1][..i] == effects[..i];
        ok, events := ExecuteEffect(effects[i], events);
        if !ok {
          FailureStays(balances.codec, old(Contents()), effects, i + 1);
          return;
        }
      }
      assert effects[..|effects|] == effects;
      ok := true;
    }
  }

  // ---- What the bank shows ----

  /** The records that the state store holds. */
  function Below(codec: Codec<Balance>, data: Data): Records {
    map k | k in data :: codec.unmarshal(data[k])
  }

  /** The cached records, and those below where nothing is cached. */
  function Seen(codec: Codec<Balance>, items: map<Bytes, Entry<Balance>>, data: Data): Records {
    map k | k in items.Keys + data.Keys && (k in items ==> items[k].value.Some?) ::
      if k in items then items[k].value else codec.unmarshal(data[k])
  }

  /** The records that the balance store reads. */
  function View(codec: Codec<Balance>, s: Bank): Records {
    Seen(codec, s.l1.items, s.backing)
  }

  /** What is seen once the entry under a key is dropped from the cache. */
  function Dropping(codec: Codec<Balance>, r: Records, data: Data, key: Option<Bytes>): Records {
    if key.None? then r
    else if key.value in data then r[key.value := codec.unmarshal(data[key.value])]
    else r - {key.value}
  }

  function Uncovered(codec: Codec<Balance>, s: Bank, key: Option<Bytes>): Records {
    Dropping(codec, View(codec, s), s.backing, key)
  }

  lemma {:induction false} SeenWithout(codec: Codec<Balance>, items: map<Bytes, Entry<Balance>>, data: Data, k: Bytes)
    requires k in items
    ensures Seen(codec, items - {k}, data) == Dropping(codec, Seen(codec, items, data), data, Some(k))
  {
  }

  lemma {:induction false} SeenWith(codec: Codec<Balance>, items: map<Bytes, Entry<Balance>>, data: Data, k: Bytes,
                                    entry: Entry<Balance>)
    requires entry.value.Some?
    ensures Seen(codec, items[k := entry], data) == Seen(codec, items, data)[k := entry.value]
  {
  }

  /** Storing an entry shows its record, and what was below the evicted one. */
  lemma {:induction false} StoringView(codec: Codec<Balance>, s: Bank, key: Bytes, entry: Entry<Balance>)
    requires IsLayered(s) && entry.value.Some?
    ensures var t := s.(l1 := Stored(s.l1, key, entry));
            IsLayered(t) && View(codec, t) == Uncovered(codec, s, Victim(s.l1, key))[key := entry.value]
    ensures Victim(s.l1, key) != Some(key)
  {
    StoredContents(s.l1, key, entry);
    var victim := Victim(s.l1, key);
    if victim.Some? {
      VictimIsCached(s, key);
      SeenWithout(codec, s.l1.items, s.backing, victim.value);
      SeenWith(codec, s.l1.items - {victim.value}, s.backing, key, entry);
    } else {
      SeenWith(codec, s.l1.items, s.backing, key, entry);
    }
  }

  /** A read loads a record that is below and not cached. */
  predicate Loads(codec: Codec<Balance>, s: Bank, k: Bytes) {
    k != [] && k !in s.l1.items && Decoded(codec, s.backing, k).Some?
  }

  lemma {:induction false} GetCases(codec: Codec<Balance>, s: Bank, k: Bytes)
    requires IsLayered(s) && k != []
    ensures AfterGet(codec, s, k)
            == if Loads(codec, s, k) then s.(l1 := Stored(s.l1, k, Entry(Decoded(codec, s.backing, k), false)))
               else if k in s.l1.items then s.(l1 := Touched(s.l1, k))
               else s
    ensures Loads(codec, s, k) ==> View(codec, s)[k := Decoded(codec, s.backing, k)] == View(codec, s)
  {
  }

  lemma {:induction false} GetView(codec: Codec<Balance>, s: Bank, k: Bytes)
    requires IsLayered(s)
    ensures var t := AfterGet(codec, s, k);
            && IsLayered(t) && t.backing == s.backing && t.l1.capacity == s.l1.capacity
            && View(codec, t) == Uncovered(codec, s, if Loads(codec, s, k) then Victim(s.l1, k) else None)
  {
    if k != [] {
      GetCases(codec, s, k);
    }
    if Loads(codec, s, k) {
      hide View, AfterGet;
      StoringView(codec, s, k, Entry(Decoded(codec, s.backing, k), false));
      assert View(codec, s)[k] == Decoded(codec, s.backing, k);
    } else {
      TouchedIsValid(s.l1, k);
    }
  }

  /** Reading through the cache reads the view. */
  lemma {:induction false} FetchIsView(codec: Codec<Balance>, s: Bank, account: AccountName, denom: Bytes)
    requires IsLayered(s) && IsValidName(account) && denom != []
    ensures FetchFrom(codec, s, account, denom)
            == (AfterGet(codec, s, BalanceKey(account, denom)), Fetch(View(codec, s), account, denom))
  {
    BalanceKeyHasSlash(account, denom);
  }

  // ---- Supply ----

  ghost function SupplyOf(codec: Codec<Balance>, s: Bank, d: Bytes): nat {
    SupplyIn(View(codec, s), d)
  }

  /** What the supply changes by when storing the key evicts an entry: what is below comes back in its place. */
  function Spill(codec: Codec<Balance>, s: Bank, key: Bytes, d: Bytes): int {
    var victim := Victim(s.l1, key);
    if victim.None? then 0
    else HeldAt(Below(codec, s.backing), victim.value, d) - HeldAt(View(codec, s), victim.value, d)
  }

  lemma {:induction false} UncoveredSupply(codec: Codec<Balance>, s: Bank, key: Bytes, d: Bytes)
    ensures SupplyIn(Uncovered(codec, s, Victim(s.l1, key)), d) == SupplyOf(codec, s, d) + Spill(codec, s, key, d)
  {
    var victim := Victim(s.l1, key);
    if victim.Some? {
      if victim.value in s.backing {
        PutSupply(View(codec, s), victim.value, codec.unmarshal(s.backing[victim.value]), d);
      } else {
        RemoveSupply(View(codec, s), victim.value, d);
      }
    }
  }

  lemma {:induction false} StoringSupply(codec: Codec<Balance>, s: Bank, key: Bytes, entry: Entry<Balance>, d: Bytes)
    requires IsLayered(s) && entry.value.Some?
    ensures SupplyOf(codec, s.(l1 := Stored(s.l1, key, entry)), d)
            == SupplyOf(codec, s, d) + Spill(codec, s, key, d)
               - HeldAt(View(codec, s), key, d) + AmountUnder(key, entry.value, d)
  {
    var u := Uncovered(codec, s, Victim(s.l1, key));
    assert View(codec, s.(l1 := Stored(s.l1, key, entry))) == u[key := entry.value] by {
      StoringView(codec, s, key, entry);
    }
    assert HeldAt(u, key, d) == HeldAt(View(codec, s), key, d) by {
      StoringView(codec, s, key, entry);
    }
    UncoveredSupply(codec, s, key, d);
    PutSupply(u, key, entry.value, d);
  }

  function SpillOnGet(codec: Codec<Balance>, s: Bank, k: Bytes, d: Bytes): int {
    if Loads(codec, s, k) then Spill(codec, s, k, d) else 0
  }

  lemma {:induction false} GetSupply(codec: Codec<Balance>, s: Bank, k: Bytes, d: Bytes)
    requires IsLayered(s)
    ensures SupplyOf(codec, AfterGet(codec, s, k), d) == SupplyOf(codec, s, d) + SpillOnGet(codec, s, k, d)
    ensures k in View(codec, AfterGet(codec, s, k)) <==> k in View(codec, s)
    ensures k in View(codec, s) ==> View(codec, AfterGet(codec, s, k))[k] == View(codec, s)[k]
  {
    GetView(codec, s, k);
    if Loads(codec, s, k) {
      UncoveredSupply(codec, s, k, d);
      if Victim(s.l1, k).Some? {
        VictimIsCached(s, k);
      }
    }
  }

  /** The records seen and those below are sound. */
  ghost predicate IsSoundBank(codec: Codec<Balance>, s: Bank) {
    IsLayered(s) && IsSound(View(codec, s)) && IsSound(Below(codec, s.backing))
  }

  lemma {:induction false} UncoveredIsSound(codec: Codec<Balance>, s: Bank, key: Option<Bytes>)
    requires IsSoundBank(codec, s)
    ensures IsSound(Uncovered(codec, s, key))
  {
    if key.Some? && key.value in s.backing {
      assert IsSoundAt(key.value, Below(codec, s.backing)[key.value]);
    }
  }

  lemma {:induction false} GetIsSound(codec: Codec<Balance>, s: Bank, k: Bytes)
    requires IsSoundBank(codec, s)
    ensures IsSoundBank(codec, AfterGet(codec, s, k))
  {
    GetView(codec, s, k);
    UncoveredIsSound(codec, s, if Loads(codec, s, k) then Victim(s.l1, k) else None);
  }

  /** The balance is read and then saved with another amount. */
  function Updated(codec: Codec<Balance>, s: Bank, account: AccountName, denom: Bytes, amount: Uint64): Bank {
    var k := BalanceKey(account, denom);
    AfterPut(AfterGet(codec, s, k), k, Some(Balance(account, denom, amount)))
  }

  function SpillOnUpdate(codec: Codec<Balance>, s: Bank, account: AccountName, denom: Bytes, d: Bytes): int {
    var k := BalanceKey(account, denom);
    SpillOnGet(codec, s, k, d) + Spill(codec, AfterGet(codec, s, k), k, d)
  }

  lemma {:induction false} UpdatedSupply(codec: Codec<Balance>, s: Bank, account: AccountName, denom: Bytes,
                                         amount: Uint64, d: Bytes)
    requires IsSoundBank(codec, s) && IsValidName(account) && denom != [] && IsUsable(View(codec, s), account, denom)
    ensures var t := Updated(codec, s, account, denom, amount);
            && IsSoundBank(codec, t)
            && SupplyOf(codec, t, d)
               == SupplyOf(codec, s, d) + SpillOnUpdate(codec, s, account, denom, d)
                  + if d == denom then amount - AmountAt(View(codec, s), account, denom) else 0
  {
    var k, entry := BalanceKey(account, denom), Entry(Some(Balance(account, denom, amount)), true);
    var u := AfterGet(codec, s, k);
    BalanceKeyHasSlash(account, denom);
    GetIsSound(codec, s, k);
    GetSupply(codec, s, k, d);
    StoringView(codec, u, k, entry);
    UncoveredIsSound(codec, u, Victim(u.l1, k));
    StoringSupply(codec, u, k, entry, d);
    HeldAtUsable(View(codec, s), account, denom, d);
  }

  lemma {:induction false} HeldAtUsable(r: Records, account: AccountName, denom: Bytes, d: Bytes)
    requires IsValidName(account) && denom != [] && IsUsable(r, account, denom)
    ensures HeldAt(r, BalanceKey(account, denom), d) == if d == denom then AmountAt(r, account, denom) else 0
  {
    FetchUsable(r, account, denom);
  }

  // ---- One coin ----

  /** The balance is read, and saved with another amount if that is allowed. */
  function Changed(codec: Codec<Balance>, s: Bank, account: AccountName, denom: Bytes, saved: bool,
                   amount: Uint64): Bank
  {
    if saved then Updated(codec, s, account, denom, amount) else AfterGet(codec, s, BalanceKey(account, denom))
  }

  /** What evictions change in between. */
  function SpillOnChange(codec: Codec<Balance>, s: Bank, account: AccountName, denom: Bytes, saved: bool,
                         d: Bytes): int
  {
    if saved then SpillOnUpdate(codec, s, account, denom, d)
    else SpillOnGet(codec, s, BalanceKey(account, denom), d)
  }

  lemma {:induction false} ChangedSupply(codec: Codec<Balance>, s: Bank, account: AccountName, denom: Bytes,
                                         saved: bool, amount: Uint64, d: Bytes)
    requires IsSoundBank(codec, s) && IsValidName(account) && denom != []
    requires saved ==> IsUsable(View(codec, s), account, denom)
    ensures var t := Changed(codec, s, account, denom, saved, amount);
            && IsSoundBank(codec, t)
            && SupplyOf(codec, t, d)
               == SupplyOf(codec, s, d) + SpillOnChange(codec, s, account, denom, saved, d)
                  + if saved && d == denom then amount - AmountAt(View(codec, s), account, denom) else 0
  {
    if saved {
      UpdatedSupply(codec, s, account, denom, amount, d);
    } else {
      GetIsSound(codec, s, BalanceKey(account, denom));
      GetSupply(codec, s, BalanceKey(account, denom), d);
    }
  }

  /** What is left of a balance after paying the coin, if it can be paid. */
  function Left(have: Uint64, coin: Coin): Uint64 {
    if coin.amount <= have then have - coin.amount else have
  }

  /** What a balance is with the coin, if there is room for it. */
  function Sum(have: Uint64, coin: Coin): Uint64 {
    if have <= MAX_UINT64 - coin.amount then have + coin.amount else have
  }

  lemma {:induction false} DebitChanges(codec: Codec<Balance>, s: Bank, account: AccountName, coin: Coin)
    requires IsLayered(s) && (IsSound(View(codec, s)) || IsUsable(View(codec, s), account, coin.denom))
    requires IsValidName(account) && coin.denom != [] && coin.amount > 0
    ensures var r := View(codec, s);
            Debit(codec, s, account, coin)
            == (Changed(codec, s, account, coin.denom, CanPay(r, account, coin),
                        Left(AmountAt(r, account, coin.denom), coin)),
                CanPay(r, account, coin))
  {
    hide View, AfterGet, FetchFrom, AmountAt, IsUsable, Fetch, IsSound;
    var r, u := View(codec, s), AfterGet(codec, s, BalanceKey(account, coin.denom));
    var b := Fetch(r, account, coin.denom);
    assert Debit(codec, s, account, coin) == Pay(u, b, coin) by {
      FetchIsView(codec, s, account, coin.denom);
    }
    if IsUsable(r, account, coin.denom) {
      FetchUsable(r, account, coin.denom);
    } else {
      FetchUnusable(r, account, coin.denom);
    }
  }

  lemma {:induction false} CreditChanges(codec: Codec<Balance>, s: Bank, account: AccountName, coin: Coin)
    requires IsLayered(s) && (IsSound(View(codec, s)) || IsUsable(View(codec, s), account, coin.denom))
    requires IsValidName(account) && coin.denom != [] && coin.amount > 0
    ensures var r := View(codec, s);
            Credit(codec, s, account, coin)
            == (Changed(codec, s, account, coin.denom, HasRoom(r, account, coin),
                        Sum(AmountAt(r, account, coin.denom), coin)),
                HasRoom(r, account, coin))
  {
    hide View, AfterGet, FetchFrom, AmountAt, IsUsable, Fetch, IsSound;
    var r, u := View(codec, s), AfterGet(codec, s, BalanceKey(account, coin.denom));
    var b := Fetch(r, account, coin.denom);
    assert Credit(codec, s, account, coin) == Receive(u, b, coin) by {
      FetchIsView(codec, s, account, coin.denom);
    }
    if IsUsable(r, account, coin.denom) {
      FetchUsable(r, account, coin.denom);
    } else {
      FetchUnusable(r, account, coin.denom);
    }
  }

  lemma {:induction false} DebitSupply(codec: Codec<Balance>, s: Bank, account: AccountName, coin: Coin, d: Bytes)
    requires IsSoundBank(codec, s) && IsValidName(account) && coin.denom != [] && coin.amount > 0
    ensures var (t, ok) := Debit(codec, s, account, coin);
            && IsSoundBank(codec, t) && (ok <==> CanPay(View(codec, s), account, coin))
            && SupplyOf(codec, t, d)
               == SupplyOf(codec, s, d) + SpillOnChange(codec, s, account, coin.denom, ok, d)
                  - if ok && d == coin.denom then coin.amount else 0
  {
    var r := View(codec, s);
    DebitChanges(codec, s, account, coin);
    ChangedSupply(codec, s, account, coin.denom, CanPay(r, account, coin), Left(AmountAt(r, account, coin.denom), coin),
                  d);
  }

  lemma {:induction false} CreditSupply(codec: Codec<Balance>, s: Bank, account: AccountName, coin: Coin, d: Bytes)
    requires IsSoundBank(codec, s) && IsValidName(account) && coin.denom != [] && coin.amount > 0
    ensures var (t, ok) := Credit(codec, s, account, coin);
            && IsSoundBank(codec, t) && (ok <==> HasRoom(View(codec, s), account, coin))
            && SupplyOf(codec, t, d)
               == SupplyOf(codec, s, d) + SpillOnChange(codec, s, account, coin.denom, ok, d)
                  + if ok && d == coin.denom then coin.amount else 0
  {
    var r := View(codec, s);
    CreditChanges(codec, s, account, coin);
    ChangedSupply(codec, s, account, coin.denom, HasRoom(r, account, coin), Sum(AmountAt(r, account, coin.denom), coin),
                  d);
  }

  /** The coin is paid and then refused. */
  predicate IsRefused(codec: Codec<Balance>, s: Bank, from: AccountName, to: AccountName, coin: Coin) {
    CanPay(View(codec, s), from, coin) && !HasRoom(View(codec, Debit(codec, s, from, coin).0), to, coin)
  }

  ghost function SpillOfCoin(codec: Codec<Balance>, s: Bank, from: AccountName, to: AccountName, coin: Coin,
                             d: Bytes): int
  {
    var (paid, ok) := Debit(codec, s, from, coin);
    SpillOnChange(codec, s, from, coin.denom, ok, d)
    + if ok then SpillOnChange(codec, paid, to, coin.denom, Credit(codec, paid, to, coin).1, d) else 0
  }

  /** A coin keeps every supply, except for a refused one, which is lost, and for what evictions change. */
  lemma {:induction false} MoveCoinSupply(codec: Codec<Balance>, s: Bank, from: AccountName, to: AccountName,
                                          coin: Coin, d: Bytes)
    requires IsSoundBank(codec, s) && IsValidName(from) && IsValidName(to) && coin.denom != [] && coin.amount > 0
    ensures var (t, ok) := MoveCoin(codec, s, from, to, coin);
            && IsSoundBank(codec, t)
            && (ok <==> CanPay(View(codec, s), from, coin) && !IsRefused(codec, s, from, to, coin))
            && SupplyOf(codec, t, d)
               == SupplyOf(codec, s, d) + SpillOfCoin(codec, s, from, to, coin, d)
                  - if IsRefused(codec, s, from, to, coin) && d == coin.denom then coin.amount else 0
  {
    DebitSupply(codec, s, from, coin, d);
    var (paid, ok) := Debit(codec, s, from, coin);
    if ok {
      CreditSupply(codec, paid, to, coin, d);
    }
  }
}
