/**
 * The currency identifiers of the ledger, the integer width of its balances,
 * and the string keys under which balances are persisted.
 */
module Currencies {

  /** The closed enumeration of currency kinds (CurrencyType). */
  datatype CurrencyType = CurrencyA | CurrencyB | CurrencyC

  /** The range of C#'s `int`, the type of every balance and every stored value. */
  predicate InInt32(x: int) {
    -0x8000_0000 <= x < 0x8000_0000
  }

  type int32 = x: int | InInt32(x)

  /**
   * The values of the enumeration in declaration order: the order in which
   * `Enum.GetValues` visits them, and so the insertion order of the ledger's
   * dictionary once it has been initialized from empty.
   */
  const AllCurrencies: seq<CurrencyType> := [CurrencyA, CurrencyB, CurrencyC]

  /** `currencyType.ToString()`: the store key of a currency's balance. */
  function Name(c: CurrencyType): string {
    match c
    case CurrencyA => "CurrencyA"
    case CurrencyB => "CurrencyB"
    case CurrencyC => "CurrencyC"
  }

  /** The store key of the once-only initial-grant flag. */
  const InitialRewardKey: string := "initial_reward"

  /** The enumeration order lists every currency exactly once. */
  lemma AllCurrenciesEnumerated()
    ensures forall c :: c in AllCurrencies
    ensures forall i, j :: 0 <= i < j < |AllCurrencies| ==> AllCurrencies[i] != AllCurrencies[j]
  {
    forall c: CurrencyType ensures c in AllCurrencies {
      match c
      case CurrencyA => assert AllCurrencies[0] == c;
      case CurrencyB => assert AllCurrencies[1] == c;
      case CurrencyC => assert AllCurrencies[2] == c;
    }
  }

  /** Distinct currencies are stored under distinct keys, none of which is the grant flag's. */
  lemma NamesDistinct(c: CurrencyType, d: CurrencyType)
    ensures Name(c) == Name(d) <==> c == d
    ensures Name(c) != InitialRewardKey
  {
  }
}
