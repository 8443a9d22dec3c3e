/** Runs of the wired balance store that part from a plain map of balances: what raw effects and evictions do. */
module BankCases {
  import opened Basics
  import opened Accounts
  import opened Order
  import opened Effects
  import opened Codecs
  import opened Balances
  import opened Records
  import opened Cache
  import opened CachedStore
  import opened Agreement
  import opened SharedStore
  import opened BankSupply

  // ---- A raw deletion above which a balance is cached ----

  /** A flush changes nothing that the balance store shows. */
  lemma {:induction false} FlushKeepsView(codec: Codec<Balance>, s: Bank)
    requires IsFaithful(codec) && IsLayered(s) && [] !in s.l1.items
    ensures IsLayered(AfterFlush(codec, s)) && View(codec, AfterFlush(codec, s)) == View(codec, s)
  {
    var t := AfterFlush(codec, s);
    FlushIsLayered(codec, s);
    forall k
      ensures k in View(codec, t) <==> k in View(codec, s)
      ensures k in View(codec, s) ==> View(codec, t)[k] == View(codec, s)[k]
    {
      FlushAt(codec, s, k);
    }
  }

  /** A deletion of a balance that is dirty in the cache is not seen, and the next flush undoes it. */
  lemma {:induction false} DeletionIsUndone(codec: Codec<Balance>, s: Bank, store: Bytes, key: Bytes)
    requires IsFaithful(codec) && IsLayered(s) && [] !in s.l1.items && store != [] && key != []
    requires var k := FullKey(store, key); k in s.l1.items && s.l1.items[k].dirty && s.l1.items[k].value.Some?
    ensures var deleted := ApplyEffect(codec, s, Delete(store, key));
            var flushed := AfterFlush(codec, deleted.bank);
            && deleted.ok && View(codec, deleted.bank) == View(codec, s) && View(codec, flushed) == View(codec, s)
            && Decoded(codec, flushed.backing, FullKey(store, key)) == s.l1.items[FullKey(store, key)].value
  {
    var e := Delete(store, key);
    RawView(codec, s, e);
    var t := ApplyEffect(codec, s, e).bank;
    FlushKeepsView(codec, t);
    FlushAt(codec, t, FullKey(store, key));
  }

  // ---- One balance more than the cache holds ----

  lemma {:induction false} StoredIsFirst(c: Lru<Balance>, k: Bytes, e: Entry<Balance>, f: Entry<Balance>)
    requires c.Valid()
    ensures Stored(c, k, e).order != [] && Stored(c, k, e).order[0] == k
    ensures Stored(c, k, e).order == Stored(c, k, f).order
  {
  }

  /** What stays cached when the key is stored. */
  function Kept(c: Lru<Balance>, k: Bytes): map<Bytes, Entry<Balance>> {
    if Victim(c, k).Some? then c.items - {Victim(c, k).value} else c.items
  }

  lemma {:induction false} StoredKeeps(c: Lru<Balance>, k: Bytes, e: Entry<Balance>)
    requires c.Valid()
    ensures Stored(c, k, e).items == Kept(c, k)[k := e] && Stored(c, k, e).capacity == c.capacity
  {
    StoredContents(c, k, e);
  }

  lemma {:induction false} FirstStays(c: Lru<Balance>, k: Bytes, f: Entry<Balance>)
    requires k in c.items && c.order != [] && c.order[0] == k
    ensures Touched(c, k) == c && Stored(c, k, f) == c.(items := c.items[k := f])
  {
    assert ToFront(c.order, k) == c.order;
  }

  /** Storing a key twice, or looking it up in between, is storing it once. */
  lemma {:induction false} StoredTwice(c: Lru<Balance>, k: Bytes, e: Entry<Balance>, f: Entry<Balance>)
    requires c.Valid()
    ensures Touched(Stored(c, k, e), k) == Stored(c, k, e) && Stored(Stored(c, k, e), k, f) == Stored(c, k, f)
    ensures k in Stored(c, k, e).items && Stored(c, k, e).items[k] == e
  {
    StoredIsFirst(c, k, e, f);
    StoredKeeps(c, k, e);
    StoredKeeps(c, k, f);
    assert Kept(c, k)[k := e][k := f] == Kept(c, k)[k := f];
    var once := Stored(c, k, e);
    FirstStays(once, k, f);
    assert Stored(once, k, f) == Lru(c.capacity, once.order, Kept(c, k)[k := f]);
  }

  /** The record of a balance is below, and is not cached. */
  ghost predicate IsBelow(codec: Codec<Balance>, s: Bank, b: Balance) {
    var k := BalanceKey(b.account, b.denom);
    k !in s.l1.items && k in s.backing && codec.unmarshal(s.backing[k]) == Some(b)
  }

  function StoredBalance(s: Bank, b: Balance): Bank {
    s.(l1 := Stored(s.l1, BalanceKey(b.account, b.denom), Entry(Some(b), true)))
  }

  lemma {:induction false} UpdatedIsStored(codec: Codec<Balance>, s: Bank, account: AccountName, denom: Bytes,
                                           amount: Uint64)
    requires IsLayered(s)
    requires var k := BalanceKey(account, denom);
             k !in s.l1.items
    ensures Changed(codec, s, account, denom, true, amount) == StoredBalance(s, Balance(account, denom, amount))
  {
    var k := BalanceKey(account, denom);
    BalanceKeyHasSlash(account, denom);
    var entry := Entry(Some(Balance(account, denom, amount)), true);
    StoredTwice(s.l1, k, Entry(Decoded(codec, s.backing, k), false), entry);
  }

  lemma {:induction false} UpdatedAgain(codec: Codec<Balance>, s: Bank, b: Balance, amount: Uint64)
    requires IsLayered(s)
    ensures Changed(codec, StoredBalance(s, b), b.account, b.denom, true, amount)
            == StoredBalance(s, Balance(b.account, b.denom, amount))
  {
    var k := BalanceKey(b.account, b.denom);
    BalanceKeyHasSlash(b.account, b.denom);
    StoredTwice(s.l1, k, Entry(Some(b), true), Entry(Some(Balance(b.account, b.denom, amount)), true));
    StoredContents(s.l1, k, Entry(Some(b), true));
  }

  ghost predicate ShowsBalance(codec: Codec<Balance>, s: Bank, b: Balance) {
    b.IsValid() && BalanceKey(b.account, b.denom) in View(codec, s)
    && View(codec, s)[BalanceKey(b.account, b.denom)] == Some(b)
  }

  lemma {:induction false} DebitsShown(codec: Codec<Balance>, s: Bank, b: Balance, coin: Coin)
    requires IsSoundBank(codec, s) && ShowsBalance(codec, s, b) && coin.denom == b.denom && 0 < coin.amount <= b.amount
    ensures var t := Changed(codec, s, b.account, b.denom, true, b.amount - coin.amount);
            Debit(codec, s, b.account, coin) == (t, true) && IsSoundBank(codec, t)
  {
    hide Debit, Changed, View, SupplyOf, SpillOnChange;
    var r := View(codec, s);
    HeldIsUsable(r, b);
    assert CanPay(r, b.account, coin) && Left(AmountAt(r, b.account, coin.denom), coin) == b.amount - coin.amount;
    DebitChanges(codec, s, b.account, coin);
    ChangedSupply(codec, s, b.account, b.denom, true, b.amount - coin.amount, b.denom);
  }

  lemma {:induction false} CreditsShown(codec: Codec<Balance>, s: Bank, b: Balance, coin: Coin, sum: Uint64)
    requires IsSoundBank(codec, s) && ShowsBalance(codec, s, b)
    requires coin.denom == b.denom && coin.amount > 0 && sum == b.amount + coin.amount
    ensures var t := Changed(codec, s, b.account, b.denom, true, sum);
            Credit(codec, s, b.account, coin) == (t, true) && IsSoundBank(codec, t)
  {
    hide Credit, Changed, View, SupplyOf, SpillOnChange;
    var r := View(codec, s);
    HeldIsUsable(r, b);
    assert HasRoom(r, b.account, coin) && Sum(AmountAt(r, b.account, coin.denom), coin) == sum;
    CreditChanges(codec, s, b.account, coin);
    ChangedSupply(codec, s, b.account, b.denom, true, sum, b.denom);
  }

  lemma {:induction false} StoredIsShown(codec: Codec<Balance>, s: Bank, b: Balance)
    requires IsLayered(s) && b.IsValid()
    ensures ShowsBalance(codec, StoredBalance(s, b), b)
  {
    StoringView(codec, s, BalanceKey(b.account, b.denom), Entry(Some(b), true));
  }

  lemma {:induction false} SelfDebit(codec: Codec<Balance>, s: Bank, b: Balance, coin: Coin, left: Balance)
    requires IsSoundBank(codec, s) && b.IsValid() && IsBelow(codec, s, b)
    requires coin.denom == b.denom && 0 < coin.amount <= b.amount && left == b.(amount := b.amount - coin.amount)
    ensures Debit(codec, s, b.account, coin) == (StoredBalance(s, left), true)
    ensures IsSoundBank(codec, StoredBalance(s, left))
  {
    DebitsShown(codec, s, b, coin);
    UpdatedIsStored(codec, s, b.account, b.denom, left.amount);
  }

  lemma {:induction false} SelfCredit(codec: Codec<Balance>, s: Bank, b: Balance, coin: Coin, left: Balance)
    requires IsLayered(s) && b.IsValid() && IsSoundBank(codec, StoredBalance(s, left))
    requires coin.denom == b.denom && 0 < coin.amount <= b.amount && left == b.(amount := b.amount - coin.amount)
    ensures Credit(codec, StoredBalance(s, left), b.account, coin) == (StoredBalance(s, b), true)
    ensures IsSoundBank(codec, StoredBalance(s, b))
  {
    StoredIsShown(codec, s, left);
    CreditsShown(codec, StoredBalance(s, left), left, coin, b.amount);
    UpdatedAgain(codec, s, left, b.amount);
  }

  /** Paying oneself leaves the balance as it was, now dirty in the cache. */
  lemma {:induction false} SelfCoin(codec: Codec<Balance>, s: Bank, b: Balance, coin: Coin)
    requires IsSoundBank(codec, s) && b.IsValid() && IsBelow(codec, s, b)
    requires coin.denom == b.denom && 0 < coin.amount <= b.amount
    ensures MoveCoin(codec, s, b.account, b.account, coin) == (StoredBalance(s, b), true)
    ensures IsSoundBank(codec, StoredBalance(s, b))
  {
    var left := b.(amount := b.amount - coin.amount);
    SelfDebit(codec, s, b, coin, left);
    SelfCredit(codec, s, b, coin, left);
    MoveIsCredit(codec, s, b.account, b.account, coin, StoredBalance(s, left));
  }

  /** The account holds each coin, in records that are below and not cached. */
  ghost predicate HoldsBelow(codec: Codec<Balance>, s: Bank, account: AccountName, coins: seq<Coin>) {
    forall i :: 0 <= i < |coins| ==> IsBelow(codec, s, Balance(account, coins[i].denom, coins[i].amount))
  }

  /** Of what is cached in `t`, all was cached in `s` already, or is what is below. */
  ghost predicate AddsSaved(codec: Codec<Balance>, s: Bank, t: Bank, gone: Bytes) {
    && t.backing == s.backing && gone !in t.l1.items
    && (forall k :: k in s.l1.items && k != gone ==> k in t.l1.items && t.l1.items[k] == s.l1.items[k])
    && (forall k :: k in t.l1.items && k !in s.l1.items ==>
          k in s.backing && t.l1.items[k].value.Some? && t.l1.items[k].value == codec.unmarshal(s.backing[k]))
  }

  lemma {:induction false} FirstBelow(codec: Codec<Balance>, s: Bank, account: AccountName, coins: seq<Coin>)
    requires IsLayered(s) && IsValidName(account) && ValidCoins(coins) && coins != []
    requires HoldsBelow(codec, s, account, coins)
    ensures HoldsBelow(codec, StoredBalance(s, Balance(account, coins[0].denom, coins[0].amount)), account, coins[1..])
  {
    var b := Balance(account, coins[0].denom, coins[0].amount);
    StoredContents(s.l1, BalanceKey(account, b.denom), Entry(Some(b), true));
    forall i | 0 <= i < |coins[1..]|
      ensures IsBelow(codec, StoredBalance(s, b), Balance(account, coins[1..][i].denom, coins[1..][i].amount))
    {
      var c := coins[i + 1];
      assert IsBelow(codec, s, Balance(account, c.denom, c.amount));
      LessIrreflexive(c.denom);
      if BalanceKey(account, c.denom) == BalanceKey(account, b.denom) {
        BalanceKeyInjective(account, c.denom, account, b.denom);
      }
    }
  }

  /** Storing a balance that is not cached pushes it in front, and the last key out if the cache is full. */
  lemma {:induction false} PushedBalance(s: Bank, b: Balance)
    requires IsLayered(s) && BalanceKey(b.account, b.denom) !in s.l1.items && s.l1.order != []
    ensures var k, c, last := BalanceKey(b.account, b.denom), StoredBalance(s, b).l1, s.l1.order[|s.l1.order| - 1];
            && c.capacity == s.l1.capacity
            && if |s.l1.order| == s.l1.capacity
               then c.items == (s.l1.items - {last})[k := Entry(Some(b), true)] && last != k
               else c.items == s.l1.items[k := Entry(Some(b), true)] && c.order == [k] + s.l1.order
  {
    var k := BalanceKey(b.account, b.denom);
    StoredContents(s.l1, k, Entry(Some(b), true));
    assert s.l1.order[|s.l1.order| - 1] in Elements(s.l1.order);
  }

  /** If the cache is full, storing a balance that is below pushes the last key out. */
  lemma {:induction false} PushesLastOut(codec: Codec<Balance>, s: Bank, b: Balance)
    requires IsLayered(s) && IsBelow(codec, s, b) && s.l1.order != [] && |s.l1.order| == s.l1.capacity
    ensures AddsSaved(codec, s, StoredBalance(s, b), s.l1.order[|s.l1.order| - 1])
  {
    PushedBalance(s, b);
  }

  /** Otherwise it stays for the next one to push out. */
  lemma {:induction false} PushesLater(codec: Codec<Balance>, s: Bank, b: Balance, t: Bank, gone: Bytes)
    requires IsLayered(s) && IsBelow(codec, s, b) && s.l1.order != [] && |s.l1.order| < s.l1.capacity
    requires gone in s.l1.items && AddsSaved(codec, StoredBalance(s, b), t, gone)
    ensures AddsSaved(codec, s, t, gone)
  {
    PushedBalance(s, b);
  }

  /** The last key of the cache is to be pushed out by the last of these coins. */
  ghost predicate IsAboutToPush(codec: Codec<Balance>, s: Bank, account: AccountName, coins: seq<Coin>, gone: Bytes) {
    && IsSoundBank(codec, s) && HoldsBelow(codec, s, account, coins) && coins != []
    && s.l1.order != [] && s.l1.order[|s.l1.order| - 1] == gone && |s.l1.order| + |coins| == s.l1.capacity + 1
  }

  lemma {:induction false} PushFirst(codec: Codec<Balance>, s: Bank, account: AccountName, coins: seq<Coin>,
                                     gone: Bytes)
    requires IsAboutToPush(codec, s, account, coins, gone)
    requires IsValidName(account) && ValidCoins(coins) && AllPositive(coins)
    ensures IsBelow(codec, s, Balance(account, coins[0].denom, coins[0].amount)) && gone in s.l1.items
    ensures var u := StoredBalance(s, Balance(account, coins[0].denom, coins[0].amount));
            && MoveCoin(codec, s, account, account, coins[0]) == (u, true)
            && if |coins| == 1 then AddsSaved(codec, s, u, gone)
               else IsAboutToPush(codec, u, account, coins[1..], gone)
  {
    var b := Balance(account, coins[0].denom, coins[0].amount);
    assert IsBelow(codec, s, b) && gone in Elements(s.l1.order);
    SelfCoin(codec, s, b, coins[0]);
    if |coins| == 1 {
      PushesLastOut(codec, s, b);
    } else {
      PushedBalance(s, b);
      FirstBelow(codec, s, account, coins);
    }
  }

  /** Paying oneself in one denomination more than the cache has room for evicts the least recent entry. */
  lemma {:induction false} PushesOut(codec: Codec<Balance>, s: Bank, account: AccountName, coins: seq<Coin>,
                                     gone: Bytes)
    requires IsAboutToPush(codec, s, account, coins, gone)
    requires IsValidName(account) && ValidCoins(coins) && AllPositive(coins)
    ensures var (t, ok) := TransferCoins(codec, s, account, account, coins);
            ok && AddsSaved(codec, s, t, gone)
    decreases |coins|
  {
    hide MoveCoin, AddsSaved, HoldsBelow, IsBelow, StoredBalance, View;
    var b, rest := Balance(account, coins[0].denom, coins[0].amount), coins[1..];
    var u := StoredBalance(s, b);
    PushFirst(codec, s, account, coins, gone);
    TransfersRest(codec, s, account, account, coins, u);
    if |coins| > 1 {
      PushesOut(codec, u, account, rest, gone);
      var t := TransferCoins(codec, u, account, account, rest).0;
      PushesLater(codec, s, b, t, gone);
    }
  }

  // ---- The supply grows ----

  /** Two entries: the receiver's, and behind it the payer's. */
  lemma {:induction false} FirstPayment(codec: Codec<Balance>, s: Bank, b: Balance, to: AccountName)
    requires IsSoundBank(codec, s) && s.l1.order == [] && s.l1.capacity >= 2
    requires b.IsValid() && IsBelow(codec, s, b) && b.amount > 0
    requires IsValidName(to) && to != b.account && BalanceKey(to, b.denom) !in s.backing
    ensures var (t, ok) := MoveCoin(codec, s, b.account, to, Coin(b.denom, 1));
            && ok && IsSoundBank(codec, t)
            && t == StoredBalance(StoredBalance(s, b.(amount := b.amount - 1)), Balance(to, b.denom, 1))
  {
    var coin, left := Coin(b.denom, 1), b.(amount := b.amount - 1);
    var paid := StoredBalance(s, left);
    SelfDebit(codec, s, b, coin, left);
    ReceivesFirst(codec, s, left, to, coin);
    MoveIsCredit(codec, s, b.account, to, coin, paid);
  }

  lemma {:induction false} ReceivesFirst(codec: Codec<Balance>, s: Bank, left: Balance, to: AccountName, coin: Coin)
    requires IsSoundBank(codec, StoredBalance(s, left)) && IsLayered(s) && s.l1.order == [] && s.l1.capacity >= 2
    requires left.IsValid() && IsValidName(to) && to != left.account && BalanceKey(to, left.denom) !in s.backing
    requires coin == Coin(left.denom, 1)
    ensures var paid := StoredBalance(s, left);
            Credit(codec, paid, to, coin) == (StoredBalance(paid, Balance(to, left.denom, 1)), true)
            && IsSoundBank(codec, StoredBalance(paid, Balance(to, left.denom, 1)))
  {
    var paid, k := StoredBalance(s, left), BalanceKey(to, left.denom);
    if k == BalanceKey(left.account, left.denom) {
      BalanceKeyInjective(to, left.denom, left.account, left.denom);
    }
    StoredContents(s.l1, BalanceKey(left.account, left.denom), Entry(Some(left), true));
    assert s.l1.items == map[] by {
      assert forall x :: x in s.l1.items ==> x in Elements(s.l1.order);
    }
    assert k !in View(codec, paid);
    CreditChanges(codec, paid, to, coin);
    ChangedSupply(codec, paid, to, left.denom, true, 1, left.denom);
    UpdatedIsStored(codec, paid, to, left.denom, 1);
  }

  /** The cache after that payment. */
  lemma {:induction false} TwoEntries(s: Bank, left: Balance, got: Balance)
    requires IsLayered(s) && s.l1.order == [] && s.l1.capacity >= 2
    requires BalanceKey(left.account, left.denom) != BalanceKey(got.account, got.denom)
    ensures var t, j, k := StoredBalance(StoredBalance(s, left), got), BalanceKey(left.account, left.denom),
                           BalanceKey(got.account, got.denom);
            && t.backing == s.backing && t.l1.capacity == s.l1.capacity && t.l1.order == [k, j]
            && t.l1.items == map[j := Entry(Some(left), true), k := Entry(Some(got), true)]
    ensures s.l1.items == map[]
  {
    assert s.l1.items == map[] by {
      assert forall x :: x in s.l1.items ==> x in Elements(s.l1.order);
    }
  }

  lemma {:induction false} HoldsBelowBoth(codec: Codec<Balance>, s: Bank, t: Bank, account: AccountName,
                                          coins: seq<Coin>, j: Bytes, denom: Bytes)
    requires HoldsBelow(codec, s, account, coins) && t.backing == s.backing && IsValidName(account)
    requires t.l1.items.Keys == {j, BalanceKey(account, denom)}
    requires forall i :: 0 <= i < |coins| ==> coins[i].denom != denom && BalanceKey(account, coins[i].denom) != j
    ensures HoldsBelow(codec, t, account, coins)
  {
    forall i | 0 <= i < |coins| ensures IsBelow(codec, t, Balance(account, coins[i].denom, coins[i].amount)) {
      assert IsBelow(codec, s, Balance(account, coins[i].denom, coins[i].amount));
      if BalanceKey(account, coins[i].denom) == BalanceKey(account, denom) {
        BalanceKeyInjective(account, coins[i].denom, account, denom);
      }
    }
  }

  /** Once the payer's entry is gone, the bank shows what is below, and the receiver's coin. */
  lemma {:induction false} ShowsBoth(codec: Codec<Balance>, s: Bank, t: Bank, u: Bank, j: Bytes, got: Balance)
    requires s.l1.items == map[] && t.backing == s.backing && AddsSaved(codec, t, u, j)
    requires var k := BalanceKey(got.account, got.denom);
             j != k && t.l1.items.Keys == {j, k} && t.l1.items[k] == Entry(Some(got), true)
    ensures View(codec, u) == View(codec, s)[BalanceKey(got.account, got.denom) := Some(got)]
  {
    var k := BalanceKey(got.account, got.denom);
    forall x
      ensures x in View(codec, u) <==> x == k || x in View(codec, s)
      ensures x in View(codec, u) ==> View(codec, u)[x] == if x == k then Some(got) else View(codec, s)[x]
    {
      assert k in u.l1.items && u.l1.items[k] == t.l1.items[k];
    }
  }

  /** A transfer of one coin each. */
  ghost function Singles(from: AccountName, to: AccountName, coins: seq<Coin>): seq<Effect> {
    if coins == [] then []
    else
      var n := |coins| - 1;
      Singles(from, to, coins[..n]) + [Transfer(from, to, [coins[n]])]
  }

  lemma {:induction false} TransferLast(codec: Codec<Balance>, s: Bank, from: AccountName, to: AccountName,
                                        coins: seq<Coin>)
    requires coins != []
    ensures var n := |coins| - 1;
            var (t, ok) := TransferCoins(codec, s, from, to, coins[..n]);
            TransferCoins(codec, s, from, to, coins)
            == if ok then MoveCoin(codec, t, from, to, coins[n]) else (t, false)
    decreases |coins|
  {
    hide MoveCoin;
    var n := |coins| - 1;
    if n == 0 {
      assert coins[..n] == [] && coins[1..] == [];
    } else {
      var (t, ok) := MoveCoin(codec, s, from, to, coins[0]);
      assert coins[..n][1..] == coins[1..][..n - 1];
      if ok {
        TransferLast(codec, t, from, to, coins[1..]);
      }
    }
  }

  /** They do what one transfer of all the coins does. */
  lemma {:induction false} SinglesApply(codec: Codec<Balance>, s: Bank, first: seq<Effect>, t: Bank, from: AccountName,
                                        to: AccountName, coins: seq<Coin>)
    requires ApplyAll(codec, s, first) == Outcome(t, [], true) && IsValidName(from) && IsValidName(to)
    requires ValidCoins(coins) && forall i :: 0 <= i < |coins| ==> coins[i].amount > 0
    ensures var (u, ok) := TransferCoins(codec, t, from, to, coins);
            ApplyAll(codec, s, first + Singles(from, to, coins)) == Outcome(u, [], ok)
  {
    hide MoveCoin;
    var effects := first + Singles(from, to, coins);
    if coins == [] {
      assert effects == first;
    } else {
      var n := |coins| - 1;
      assert effects[..|effects| - 1] == first + Singles(from, to, coins[..n]);
      SinglesApply(codec, s, first, t, from, to, coins[..n]);
      TransferLast(codec, t, from, to, coins);
      OneTransfer(codec, TransferCoins(codec, t, from, to, coins[..n]).0, from, to, coins[n]);
    }
  }

  lemma {:induction false} OneTransfer(codec: Codec<Balance>, s: Bank, from: AccountName, to: AccountName, coin: Coin)
    requires IsValidName(from) && IsValidName(to) && coin.IsValid() && coin.amount > 0
    ensures var (t, ok) := MoveCoin(codec, s, from, to, coin);
            ApplyEffect(codec, s, Transfer(from, to, [coin])) == Outcome(t, [], ok)
  {
    hide MoveCoin;
    assert IsValid(Transfer(from, to, [coin]));
    var t := MoveCoin(codec, s, from, to, coin).0;
    assert [coin][1..] == [] && TransferCoins(codec, t, from, to, []) == (t, true);
  }

  lemma {:induction false} PayerGone(codec: Codec<Balance>, s: Bank, b: Balance, to: AccountName, coins: seq<Coin>)
    returns (u: Bank)
    requires IsSoundBank(codec, s) && s.l1.order == [] && s.l1.capacity == |coins| + 1
    requires b.IsValid() && b.amount > 0 && IsValidName(to) && to != b.account
    requires ValidCoins(coins) && AllPositive(coins) && HoldsBelow(codec, s, to, coins)
    requires forall i :: 0 <= i < |coins| ==> coins[i].denom != b.denom
    requires IsSoundBank(codec, StoredBalance(StoredBalance(s, b.(amount := b.amount - 1)), Balance(to, b.denom, 1)))
    ensures var t := StoredBalance(StoredBalance(s, b.(amount := b.amount - 1)), Balance(to, b.denom, 1));
            TransferCoins(codec, t, to, to, coins) == (u, true)
    ensures View(codec, u) == View(codec, s)[BalanceKey(to, b.denom) := Some(Balance(to, b.denom, 1))]
    ensures s.l1.items == map[]
  {
    hide TransferCoins, AddsSaved, HoldsBelow, View;
    var left, got, j := b.(amount := b.amount - 1), Balance(to, b.denom, 1), BalanceKey(b.account, b.denom);
    var t := StoredBalance(StoredBalance(s, left), got);
    forall d ensures BalanceKey(to, d) != j {
      if BalanceKey(to, d) == j {
        BalanceKeyInjective(to, d, b.account, b.denom);
      }
    }
    TwoEntries(s, left, got);
    HoldsBelowBoth(codec, s, t, to, coins, j, b.denom);
    PushesOut(codec, t, to, coins, j);
    u := TransferCoins(codec, t, to, to, coins).0;
    ShowsBoth(codec, s, t, u, j, got);
  }

  /** What has to be in the store for the run below. */
  ghost predicate IsReady(codec: Codec<Balance>, s: Bank, b: Balance, to: AccountName, coins: seq<Coin>) {
    && IsSoundBank(codec, s) && s.l1.order == [] && s.l1.capacity == |coins| + 1
    && b.IsValid() && |b.denom| <= 64 && b.amount > 0 && IsBelow(codec, s, b)
    && IsValidName(to) && to != b.account && BalanceKey(to, b.denom) !in s.backing
    && ValidCoins(coins) && AllPositive(coins) && HoldsBelow(codec, s, to, coins)
    && forall i :: 0 <= i < |coins| ==> coins[i].denom != b.denom
  }

  /**
   A payment, and then single coins of the receiver to itself: what a multi-send with these two senders and
   the one receiver comes to.
   */
  ghost function Payments(b: Balance, to: AccountName, coins: seq<Coin>): seq<Effect> {
    [Transfer(b.account, to, [Coin(b.denom, 1)])] + Singles(to, to, coins)
  }

  lemma {:induction false} DebitEvicted(codec: Codec<Balance>, s: Bank, b: Balance, to: AccountName, coins: seq<Coin>)
    returns (u: Bank)
    requires IsReady(codec, s, b, to, coins)
    ensures ApplyAll(codec, s, Payments(b, to, coins)) == Outcome(u, [], true)
    ensures View(codec, u) == View(codec, s)[BalanceKey(to, b.denom) := Some(Balance(to, b.denom, 1))]
    ensures s.l1.items == map[]
  {
    hide ApplyEffect, TransferCoins, MoveCoin, View, Singles;
    var t := StoredBalance(StoredBalance(s, b.(amount := b.amount - 1)), Balance(to, b.denom, 1));
    var pay := Transfer(b.account, to, [Coin(b.denom, 1)]);
    FirstPayment(codec, s, b, to);
    OneTransfer(codec, s, b.account, to, Coin(b.denom, 1));
    assert [pay][..0] == [] && ApplyAll(codec, s, [pay]) == Outcome(t, [], true);
    u := PayerGone(codec, s, b, to, coins);
    SinglesApply(codec, s, [pay], t, to, to, coins);
  }

  /**
   A payment, and then one touched balance more than the cache has room for: the payer's debit is evicted,
   the receiver's credit is not, and the supply has grown.
   */
  lemma {:induction false} EvictionMints(codec: Codec<Balance>, s: Bank, b: Balance, to: AccountName, coins: seq<Coin>)
    requires IsReady(codec, s, b, to, coins)
    ensures var r := ApplyAll(codec, s, Payments(b, to, coins));
            r.ok && r.events == [] && SupplyOf(codec, r.bank, b.denom) == SupplyOf(codec, s, b.denom) + 1
  {
    hide ApplyAll, Payments;
    var u := DebitEvicted(codec, s, b, to, coins);
    assert BalanceKey(to, b.denom) !in View(codec, s);
    PutSupply(View(codec, s), BalanceKey(to, b.denom), Some(Balance(to, b.denom, 1)), b.denom);
  }

  // ---- A record under a foreign key ----

  /** The cache after the payment below: the payer's key as read, and in front of it the receiver's. */
  function ForeignBank(s: Bank, a: AccountName, b: AccountName, d: Bytes, amount: Uint64): Bank {
    s.(l1 := Lru(s.l1.capacity, [BalanceKey(b, d), BalanceKey(a, d)],
                 map[BalanceKey(a, d) := Entry(Some(Balance(b, d, 5)), false),
                     BalanceKey(b, d) := Entry(Some(Balance(b, d, amount)), true)]))
  }

  ghost predicate HasForeign(codec: Codec<Balance>, s: Bank, a: AccountName, b: AccountName, d: Bytes) {
    && IsValidName(a) && IsValidName(b) && a != b && d != [] && IsFaithful(codec)
    && s.l1 == Lru(s.l1.capacity, [], map[]) && s.l1.capacity >= 2 && s.l2.items == map[]
    && s.backing == map[BalanceKey(a, d) := codec.marshal(Balance(b, d, 5))]
  }

  lemma {:induction false} ForeignDebit(codec: Codec<Balance>, s: Bank, a: AccountName, b: AccountName, d: Bytes)
    requires HasForeign(codec, s, a, b, d) && BalanceKey(a, d) != BalanceKey(b, d)
    ensures Debit(codec, s, a, Coin(d, 1)) == (ForeignBank(s, a, b, d, 4), true)
  {
    BalanceKeyHasSlash(a, d);
    BalanceKeyHasSlash(b, d);
    var k := BalanceKey(a, d);
    assert Decoded(codec, s.backing, k) == Some(Balance(b, d, 5));
    assert AfterGet(codec, s, k).l1
        == Lru(s.l1.capacity, [k], map[k := Entry(Some(Balance(b, d, 5)), false)]);
    assert FetchFrom(codec, s, a, d) == (AfterGet(codec, s, k), Some(Balance(b, d, 5)));
    var paid := AfterPut(AfterGet(codec, s, k), BalanceKey(b, d), Some(Balance(b, d, 4)));
    assert paid.l1.order == ForeignBank(s, a, b, d, 4).l1.order;
    assert paid.l1.items == ForeignBank(s, a, b, d, 4).l1.items;
  }

  lemma {:induction false} ForeignCredit(codec: Codec<Balance>, s: Bank, a: AccountName, b: AccountName, d: Bytes)
    requires HasForeign(codec, s, a, b, d) && BalanceKey(a, d) != BalanceKey(b, d)
    ensures Credit(codec, ForeignBank(s, a, b, d, 4), b, Coin(d, 1)) == (ForeignBank(s, a, b, d, 5), true)
  {
    BalanceKeyHasSlash(b, d);
    var j, t := BalanceKey(b, d), ForeignBank(s, a, b, d, 4);
    assert ToFront(t.l1.order, j) == t.l1.order;
    assert AfterGet(codec, t, j) == t;
    assert FetchFrom(codec, t, b, d) == (t, Some(Balance(b, d, 4)));
    assert AfterPut(t, j, Some(Balance(b, d, 5))).l1.items == ForeignBank(s, a, b, d, 5).l1.items;
  }

  /** Records that are not sound: a balance of `b` under the key of `a` lets `a` pay with coins that nobody held. */
  lemma {:induction false} ForeignRecordMints(codec: Codec<Balance>, s: Bank, a: AccountName, b: AccountName, d: Bytes)
    requires HasForeign(codec, s, a, b, d)
    ensures var (t, ok) := MoveCoin(codec, s, a, b, Coin(d, 1));
            !IsSoundBank(codec, s) && SupplyOf(codec, s, d) == 0 && ok && SupplyOf(codec, t, d) == 5
  {
    hide Debit, Credit;
    var r, k, j := View(codec, s), BalanceKey(a, d), BalanceKey(b, d);
    BalanceKeyHasSlash(a, d);
    if k == j {
      BalanceKeyInjective(a, d, b, d);
    }
    assert r == map[k := Some(Balance(b, d, 5))];
    assert !IsSoundAt(k, r[k]);
    assert Held(r) == map[];
    assert KeysOfDenom(map[], d) == {};
    ForeignDebit(codec, s, a, b, d);
    ForeignCredit(codec, s, a, b, d);
    assert View(codec, ForeignBank(s, a, b, d, 5)) == r[j := Some(Balance(b, d, 5))];
    PutSupply(r, j, Some(Balance(b, d, 5)), d);
  }
}
