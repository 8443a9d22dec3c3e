/** Account names and coins, as `types/account.go` and `types/coin.go` check them. */
module Accounts {
  import opened Basics
  import opened Order

  type AccountName = Bytes

  /** A byte of `[a-z0-9.]` */
  predicate IsNameByte(b: Byte) {
    97 <= b <= 122 || 48 <= b <= 57 || b == 46
  }

  /** `AccountName.IsValid` */
  predicate IsValidName(a: AccountName) {
    0 < |a| <= 64 && forall i :: 0 <= i < |a| ==> IsNameByte(a[i])
  }

  datatype Coin = Coin(denom: Bytes, amount: Uint64) {
    predicate IsValid() {
      0 < |denom| <= 64
    }
  }

  /** `Coins.IsValid`: valid coins, strictly ascending by denomination. */
  predicate ValidCoins(coins: seq<Coin>) {
    && (forall i :: 0 <= i < |coins| ==> coins[i].IsValid())
    && (forall i, j :: 0 <= i < j < |coins| ==> Less(coins[i].denom, coins[j].denom))
  }

  /** `Coins.IsAllPositive`; false on the empty collection. */
  predicate AllPositive(coins: seq<Coin>) {
    coins != [] && forall i :: 0 <= i < |coins| ==> coins[i].amount > 0
  }

  /** What a map of amounts has of a denomination. */
  function AmountIn(amounts: map<Bytes, Uint64>, denom: Bytes): Uint64 {
    if denom in amounts then amounts[denom] else 0
  }
}
