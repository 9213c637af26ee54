/**
 * The ledger component itself: a dictionary of balances updated in place,
 * the persistent store it writes through, and the trace of change events
 * and caller callbacks it produces. Every method is proved against the
 * reference functions of LedgerSpec.
 */
module Ledger {
  import opened Currencies
  import opened LedgerSpec

  class CurrencySystem {
    /** The balance dictionary (currencyAmounts). */
    var currencyAmounts: Balances
    /** The persistent store (PlayerPrefs), as the integer values it holds by key. */
    var prefs: Prefs
    /** How many times the store has been flushed (PlayerPrefs.Save). */
    var flushes: nat
    /** Every OnCurrencyChanged emission and callback invocation, oldest first. */
    var trace: seq<Event>

    /** The component's state as a value of the reference model. */
    function State(): LedgerState
      reads this
    {
      LedgerState(currencyAmounts, prefs, flushes, trace)
    }

    /** A component created over an existing store, before Start has run. */
    constructor (store: Prefs)
      ensures State() == Fresh(store)
    {
      currencyAmounts := map[];
      prefs := store;
      flushes := 0;
      trace := [];
    }

    /**
     * The startup sequence: initialize, load, grant if the store has no flag,
     * broadcast. Afterwards the ledger and its store agree.
     */
    method Start()
      modifies this
      ensures State() == Started(old(State()))
      ensures Synced(State())
      ensures FlagValue(old(prefs)) == 0 ==> currencyAmounts == InitialBalances
      ensures FlagValue(old(prefs)) != 0 ==> currencyAmounts == Loaded(old(prefs)) && prefs == old(prefs)
    {
      InitializeCurrencyAmounts();
      LoadCurrency();
      GiveInitialCurrency();
      UpdateUI();
      StartSyncs(old(State()));
    }

    /** Adds every currency that has no entry, with balance 0. */
    method InitializeCurrencyAmounts()
      modifies this`currencyAmounts
      ensures Complete(currencyAmounts)
      ensures forall c :: c in old(currencyAmounts) ==> currencyAmounts[c] == old(currencyAmounts)[c]
      ensures forall c :: c !in old(currencyAmounts) ==> currencyAmounts[c] == 0
      ensures State() == WithInitialized(old(State()))
    {
      for i := 0 to |AllCurrencies|
        invariant forall c :: c in currencyAmounts <==> c in old(currencyAmounts) || c in AllCurrencies[..i]
        invariant forall c :: c in currencyAmounts ==> currencyAmounts[c] == Amount(old(currencyAmounts), c)
      {
        var c := AllCurrencies[i];
        assert AllCurrencies[..i + 1] == AllCurrencies[..i] + [c];
        if c !in currencyAmounts {
          currencyAmounts := currencyAmounts[c := 0];
        }
      }
      AllCurrenciesEnumerated();
      assert AllCurrencies[..|AllCurrencies|] == AllCurrencies;
      EqualByEntries(currencyAmounts, Initialized(old(currencyAmounts)));
      InitializeFillsMissing(old(currencyAmounts));
    }

    /** Replaces every currency's balance by the stored value under its name, or 0. */
    method LoadCurrency()
      modifies this`currencyAmounts
      ensures forall c :: c in currencyAmounts && currencyAmounts[c] == StoredAmount(prefs, c)
      ensures State() == WithLoaded(old(State()))
    {
      for i := 0 to |AllCurrencies|
        invariant forall c :: c in AllCurrencies[..i] ==> c in currencyAmounts && currencyAmounts[c] == StoredAmount(prefs, c)
      {
        var c := AllCurrencies[i];
        assert AllCurrencies[..i + 1] == AllCurrencies[..i] + [c];
        if Name(c) in prefs {
          currencyAmounts := currencyAmounts[c := prefs[Name(c)]];
        } else {
          currencyAmounts := currencyAmounts[c := 0];
        }
      }
      AllCurrenciesEnumerated();
      assert AllCurrencies[..|AllCurrencies|] == AllCurrencies;
      EqualByEntries(currencyAmounts, Loaded(prefs));
    }

    /**
     * The once-only grant: with no flag in the store (or the flag at 0) sets
     * A=10, B=10, C=5 through SetCurrencyAmount, records the flag and saves;
     * otherwise changes nothing.
     */
    method GiveInitialCurrency()
      modifies this
      ensures State() == Granted(old(State()))
      ensures FlagValue(old(prefs)) == 0 ==> currencyAmounts == InitialBalances && FlagValue(prefs) == 1
      ensures FlagValue(old(prefs)) != 0 ==> State() == old(State())
    {
      if FlagValue(prefs) == 0 {
        SetCurrencyAmount(CurrencyA, 10);
        SetCurrencyAmount(CurrencyB, 10);
        SetCurrencyAmount(CurrencyC, 5);
        prefs := prefs[InitialRewardKey := 1];
        SaveCurrency();
        GrantOnFirstRun(old(State()));
      }
    }

    /**
     * Emits one change event per currency entry, with its balance, in
     * enumeration order (BroadcastReportsBalances and BroadcastOfComplete
     * say what that sequence holds).
     */
    method UpdateUI()
      modifies this`trace
      ensures trace == old(trace) + Broadcast(currencyAmounts, AllCurrencies)
    {
      for i := 0 to |AllCurrencies|
        invariant trace == old(trace) + Broadcast(currencyAmounts, AllCurrencies[..i])
      {
        var c := AllCurrencies[i];
        assert AllCurrencies[..i + 1][..i] == AllCurrencies[..i];
        if c in currencyAmounts {
          trace := trace + [Changed(c, currencyAmounts[c])];
        }
      }
      assert AllCurrencies[..|AllCurrencies|] == AllCurrencies;
    }

    /**
     * The plain charge. With enough balance the success callback fires,
     * then the amount is deducted, reported, broadcast and saved; otherwise
     * only the insufficient callback fires. The deduction and the steps after
     * it are exactly the body of SetCurrencyAmount, which is called for them.
     */
    method ChargeCurrency(c: CurrencyType, amount: int32)
      requires c in currencyAmounts && ChargeFits(currencyAmounts[c], amount)
      modifies this
      ensures State() == Charged(old(State()), c, amount, EnoughCurrency).0
      ensures old(currencyAmounts[c]) >= amount ==> currencyAmounts == old(currencyAmounts)[c := old(currencyAmounts[c]) - amount]
      ensures old(currencyAmounts[c]) < amount ==>
        && currencyAmounts == old(currencyAmounts) && prefs == old(prefs) && flushes == old(flushes)
        && trace == old(trace) + [Invoked(NotEnoughCurrency, old(currencyAmounts))]
      ensures old(Synced(State())) ==> Synced(State())
    {
      if currencyAmounts[c] >= amount {
        trace := trace + [Invoked(EnoughCurrency, currencyAmounts)];
        SetCurrencyAmount(c, currencyAmounts[c] - amount);
      } else {
        trace := trace + [Invoked(NotEnoughCurrency, currencyAmounts)];
      }
    }

    /**
     * The charge for a named item: as ChargeCurrency, with the item name
     * passed to the success callback, and reporting whether it went through.
     */
    method ChargeCurrencyForItem(c: CurrencyType, amount: int32, itemName: string) returns (ok: bool)
      requires c in currencyAmounts && ChargeFits(currencyAmounts[c], amount)
      modifies this
      ensures State() == Charged(old(State()), c, amount, EnoughCurrencyFor(itemName)).0
      ensures ok <==> old(currencyAmounts[c]) >= amount
      ensures ok ==> currencyAmounts == old(currencyAmounts)[c := old(currencyAmounts[c]) - amount]
      ensures !ok ==>
        && currencyAmounts == old(currencyAmounts) && prefs == old(prefs) && flushes == old(flushes)
        && trace == old(trace) + [Invoked(NotEnoughCurrency, old(currencyAmounts))]
      ensures old(Synced(State())) ==> Synced(State())
    {
      if currencyAmounts[c] >= amount {
        trace := trace + [Invoked(EnoughCurrencyFor(itemName), currencyAmounts)];
        SetCurrencyAmount(c, currencyAmounts[c] - amount);
        ok := true;
      } else {
        trace := trace + [Invoked(NotEnoughCurrency, currencyAmounts)];
        ok := false;
      }
    }

    /**
     * The plain reward: adds `amount`, whatever its sign, then reports,
     * broadcasts and saves (the steps of SetCurrencyAmount).
     */
    method RewardCurrency(c: CurrencyType, amount: int32)
      requires c in currencyAmounts && InInt32(currencyAmounts[c] + amount)
      modifies this
      ensures State() == Rewarded(old(State()), c, amount, false)
      ensures currencyAmounts == old(currencyAmounts)[c := old(currencyAmounts[c]) + amount]
      ensures old(Synced(State())) ==> Synced(State())
    {
      SetCurrencyAmount(c, currencyAmounts[c] + amount);
    }

    /** The reward whose increase callback fires before the balance changes. */
    method RewardCurrencyWithCallback(c: CurrencyType, amount: int32)
      requires c in currencyAmounts && InInt32(currencyAmounts[c] + amount)
      modifies this
      ensures State() == Rewarded(old(State()), c, amount, true)
      ensures currencyAmounts == old(currencyAmounts)[c := old(currencyAmounts[c]) + amount]
      ensures trace[|old(trace)|] == Invoked(IncreaseCurrency, old(currencyAmounts))
      ensures old(Synced(State())) ==> Synced(State())
    {
      trace := trace + [Invoked(IncreaseCurrency, currencyAmounts)];
      SetCurrencyAmount(c, currencyAmounts[c] + amount);
    }

    /**
     * Overwrites one balance, then reports, broadcasts and saves. The
     * dictionary's setter adds a missing entry, so any currency may be set.
     */
    method SetCurrencyAmount(c: CurrencyType, amount: int32)
      modifies this
      ensures State() == AmountSet(old(State()), c, amount)
      ensures GetCurrencyAmount(c) == amount
      ensures forall d :: d != c ==> GetCurrencyAmount(d) == old(GetCurrencyAmount(d))
      ensures old(Synced(State())) ==> Synced(State())
    {
      currencyAmounts := currencyAmounts[c := amount];
      trace := trace + [Changed(c, currencyAmounts[c])];
      UpdateUI();
      SaveCurrency();
      if old(Synced(State())) {
        AmountSetKeepsSync(old(State()), c, amount);
      }
    }

    /** The balance of `c`, or 0 if `c` has no entry. */
    function GetCurrencyAmount(c: CurrencyType): (r: int32)
      reads this
      ensures c in currencyAmounts ==> r == currencyAmounts[c]
      ensures c !in currencyAmounts ==> r == 0
    {
      Amount(currencyAmounts, c)
    }

    /** Writes every entry to the store under its currency's name, then flushes. */
    method SaveCurrency()
      modifies this`prefs, this`flushes
      ensures prefs == Saved(old(prefs), currencyAmounts) && flushes == old(flushes) + 1
    {
      for i := 0 to |AllCurrencies|
        invariant prefs == SavedOver(old(prefs), currencyAmounts, AllCurrencies[..i])
        invariant flushes == old(flushes)
      {
        var c := AllCurrencies[i];
        assert AllCurrencies[..i + 1][..i] == AllCurrencies[..i];
        if c in currencyAmounts {
          prefs := prefs[Name(c) := currencyAmounts[c]];
        }
      }
      assert AllCurrencies[..|AllCurrencies|] == AllCurrencies;
      assert prefs == Saved(old(prefs), currencyAmounts);
      flushes := flushes + 1;
    }
  }

  /**
   * One first session and a restart, run against the component: a first
   * session over an empty store charges 4 of A, fails to charge 100 of A,
   * rewards 3 of C; a second component over the same store starts with
   * {A:6, B:10, C:8}.
   */
  method TwoSessions() returns (first: bool, second: bool, reloaded: Balances)
    ensures first && !second
    ensures reloaded == map[CurrencyA := 6, CurrencyB := 10, CurrencyC := 8]
  {
    var ledger := new CurrencySystem(map[]);
    ledger.Start();
    assert ledger.currencyAmounts == InitialBalances;
    first := ledger.ChargeCurrencyForItem(CurrencyA, 4, "item");
    assert ledger.currencyAmounts == InitialBalances[CurrencyA := 6];
    second := ledger.ChargeCurrencyForItem(CurrencyA, 100, "item");
    assert ledger.currencyAmounts == InitialBalances[CurrencyA := 6];
    ledger.RewardCurrency(CurrencyC, 3);
    assert ledger.currencyAmounts == InitialBalances[CurrencyA := 6][CurrencyC := 8];
    EqualByEntries(ledger.currencyAmounts, map[CurrencyA := 6, CurrencyB := 10, CurrencyC := 8]);
    assert Synced(ledger.State());
    var next := new CurrencySystem(ledger.prefs);
    next.Start();
    reloaded := next.currencyAmounts;
  }
}
