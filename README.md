# Currency ledger

A model of the `CurrencySystem` component, the in-game currency ledger of a
Unity project. The ledger is a dictionary from a closed enumeration of
currencies (`CurrencyA`, `CurrencyB`, `CurrencyC`) to an `int` balance. It is
persisted to a string-keyed integer store (`PlayerPrefs`) under each
currency's name. Its operations:

- initialize missing balances to 0;
- load the balances from the store;
- give a once-only starting grant, guarded by the stored `initial_reward` flag;
- charge and reward, each in two overloads, with caller callbacks;
- set and read a balance;
- save every balance back to the store.

Every mutation emits a change event for the currency it touched, then
re-broadcasts every balance (`UpdateUI`), then saves.

The project has three modules:

- `Currencies` (currencies.dfy): the enumeration, the `int` range, the store
  keys.
- `LedgerSpec` (ledger_spec.dfy): a pure reference model. A `LedgerState`
  holds the balances, the store, a count of store flushes, and a trace of
  what observers and callers were shown. `OnCurrencyChanged` emissions appear
  as `Changed` entries. Caller callbacks appear as `Invoked` entries that
  record the balances visible when the callback ran. Each operation is a
  function on `LedgerState`, and the lemmas state what the component
  promises.
- `Ledger` (ledger.dfy): the class `CurrencySystem`. Its fields are updated
  in place, and its loop-based methods are proved against the `LedgerSpec`
  functions (`ensures State() == Spec(old(State()))`).

The central invariant is `Synced`: the balances are exactly what loading the
store would give, and the grant flag is set. `Start` establishes it. Every
charge, reward and set preserves it. Consequently, a new component started
over the same store restores the same balances.

## Model

| member | source | states |
|---|---|---|
| Currencies.AllCurrenciesEnumerated | CurrencySystem.cs:7-12 | the enumeration order visits every currency exactly once |
| Currencies.NamesDistinct | CurrencySystem.cs:168 | distinct currencies are stored under distinct keys, and no currency key is the `initial_reward` flag's key |
| LedgerSpec.InitializeFillsMissing | CurrencySystem.cs:36-45 | after initialization every currency has an entry; an existing entry keeps its value; a new entry is 0; initializing twice equals initializing once |
| LedgerSpec.SavedOverStores | CurrencySystem.cs:164-169 | writing the entries of a prefix of the enumeration stores each written balance under its name; it leaves alone every key that names no currency, and the key of every currency without an entry |
| LedgerSpec.SavedStoresEveryBalance | CurrencySystem.cs:164-171 | saving stores every balance under its currency's name; it leaves untouched the keys that name no currency and the keys of currencies without an entry |
| LedgerSpec.LoadSaveRoundTrip | CurrencySystem.cs:164-187 | loading what a complete ledger saved gives back exactly that ledger, whatever the store held before |
| LedgerSpec.SavedKeepsFlag | CurrencySystem.cs:164-171 | saving never changes the `initial_reward` flag |
| LedgerSpec.BroadcastReportsBalances | CurrencySystem.cs:60-66 | a broadcast over the currencies `cs` has no more events than `cs` has elements; each event reports a visited currency that has an entry, with its current balance; every visited currency that has an entry is reported |
| LedgerSpec.BroadcastNamesCurrencyOnce | CurrencySystem.cs:60-66 | when no currency is visited twice, no two events of the broadcast name the same currency |
| LedgerSpec.BroadcastOncePerEntry | CurrencySystem.cs:60-66 | the broadcast of any dictionary, complete or partial, has exactly one event per entry, reporting that entry's balance, and no other event |
| LedgerSpec.BroadcastOfComplete | CurrencySystem.cs:60-66 | over a complete ledger the broadcast is exactly A, B, C with their balances, in that order |
| LedgerSpec.AmountSetParts | CurrencySystem.cs:147-153 | a set writes the balance, emits its change event, then the full broadcast, saves, and flushes once |
| LedgerSpec.SetThenGet | CurrencySystem.cs:147-161 | after a set the currency reads back the amount set; every other currency reads as before; the change event precedes the broadcast; the store holds the new balances |
| LedgerSpec.ChargeSucceeds | CurrencySystem.cs:69-108 | with enough balance the charge reports success; the balance drops by the amount and the others are unchanged; the success callback fires first and sees the old balances; the insufficient callback does not fire; the store is saved |
| LedgerSpec.ChargeFails | CurrencySystem.cs:85-115 | with too little balance the charge reports failure; balances, store and flush count are unchanged; the trace gains only the insufficient callback |
| LedgerSpec.NegativeChargeRaisesBalance | CurrencySystem.cs:72-77 | a negative amount on a non-negative balance always passes the guard and increases the balance |
| LedgerSpec.RewardAdds | CurrencySystem.cs:119-144 | a reward of any sign adds the amount to the currency and leaves the others; the overload with a callback fires it before the change event and with the old balances; the store is saved and flushed once |
| LedgerSpec.GrantOnFirstRun | CurrencySystem.cs:47-58 | with the flag absent or 0 the grant sets A=10, B=10, C=5 and the flag to 1, and the store reloads to those balances |
| LedgerSpec.GrantSkippedWhenFlagged | CurrencySystem.cs:49 | with the flag set the grant changes nothing: no balance, store entry or event |
| LedgerSpec.GrantOnce | CurrencySystem.cs:47-58 | granting twice is the same as granting once |
| LedgerSpec.StartSyncs | CurrencySystem.cs:28-34 | after startup the ledger agrees with its store; a first run holds the initial grant; a later run holds what the store held and leaves the store as it was |
| LedgerSpec.AmountSetKeepsSync | CurrencySystem.cs:147-153 | a set keeps the ledger and its store in agreement |
| LedgerSpec.ChargeKeepsSync | CurrencySystem.cs:69-116 | a charge, successful or not, keeps the ledger and its store in agreement |
| LedgerSpec.RewardKeepsSync | CurrencySystem.cs:119-144 | a reward keeps the ledger and its store in agreement |
| LedgerSpec.RestartRestoresBalances | CurrencySystem.cs:28-187 | a component started over the store of an agreeing ledger has the same balances, and its startup does not change the store |
| LedgerSpec.FirstSessionScenario | CurrencySystem.cs:28-144 | a first run gets {A:10, B:10, C:5}; charging 4 of A succeeds; charging 100 of A fails; rewarding 3 of C; a restart then reads {A:6, B:10, C:8} |
| Ledger.CurrencySystem.constructor | CurrencySystem.cs:19 | a new component has an empty dictionary over the given store |
| Ledger.CurrencySystem.Start | CurrencySystem.cs:28-34 | runs initialize, load, grant and broadcast, in that order; leaves the ledger in agreement with its store; the first-run and later-run balances are as StartSyncs states |
| Ledger.CurrencySystem.InitializeCurrencyAmounts | CurrencySystem.cs:36-45 | the loop makes every currency a key, keeps existing balances and adds missing ones as 0 |
| Ledger.CurrencySystem.LoadCurrency | CurrencySystem.cs:174-187 | the loop sets every balance to the stored value under the currency's name, or 0 when the key is absent |
| Ledger.CurrencySystem.GiveInitialCurrency | CurrencySystem.cs:47-58 | with no flag the method sets A=10, B=10, C=5 through SetCurrencyAmount and sets the flag to 1; with the flag set the state is unchanged |
| Ledger.CurrencySystem.UpdateUI | CurrencySystem.cs:60-66 | the loop appends the broadcast of the current balances, in enumeration order, and changes nothing else |
| Ledger.CurrencySystem.ChargeCurrency | CurrencySystem.cs:69-90 | the new state is the reference charge; with enough balance only the charged currency drops by the amount; otherwise nothing changes except the insufficient callback; agreement with the store is kept |
| Ledger.CurrencySystem.ChargeCurrencyForItem | CurrencySystem.cs:93-116 | as ChargeCurrency, with the item name passed to the success callback; the result is true exactly when the balance covered the amount |
| Ledger.CurrencySystem.RewardCurrency | CurrencySystem.cs:119-129 | the new state is the reference reward; the currency gains the amount and the others are unchanged; agreement is kept |
| Ledger.CurrencySystem.RewardCurrencyWithCallback | CurrencySystem.cs:132-144 | as RewardCurrency, and the first new trace entry is the increase callback, which sees the old balances |
| Ledger.CurrencySystem.SetCurrencyAmount | CurrencySystem.cs:147-153 | the currency reads back the amount; every other currency reads as before; the new state is the reference set; agreement is kept |
| Ledger.CurrencySystem.GetCurrencyAmount | CurrencySystem.cs:156-161 | the balance of a currency with an entry, 0 for one without |
| Ledger.CurrencySystem.SaveCurrency | CurrencySystem.cs:164-171 | the loop writes every entry under its name, then the store is flushed once |
| Ledger.TwoSessions | CurrencySystem.cs:28-144 | two components run over one store: the first charge succeeds, the second fails, and the restarted component holds {A:6, B:10, C:8} |

## Left out

- The Unity lifecycle (`Awake`, the static `instance` singleton, `MonoBehaviour`) is host bootstrapping. `Start` is modelled only as its fixed call sequence.
- Store durability and `PlayerPrefs.Save()` are foreign I/O. The store is a map, and a save is a flush counter.
- Event subscription and `?.Invoke` on null delegates are not modelled. Every emission and callback is recorded in the trace, whether or not anything is subscribed or passed.
- A callback or subscriber that calls back into the ledger while it runs (reentrancy) is not modelled. Callbacks only observe the balances.
- The `TMPro` and `UnityEngine` imports are UI-only and carry no ledger logic.
- Dictionary enumeration order in `UpdateUI` and `SaveCurrency` is fixed as A, B, C: the enumeration's declaration order, which is the insertion order after initializing from empty.
- Ledger.CurrencySystem.ChargeCurrency: requires that the new balance fits in `int`, instead of modelling C#'s unchecked wrap-around.
- Ledger.CurrencySystem.ChargeCurrencyForItem: requires that the new balance fits in `int`, instead of modelling wrap-around.
- Ledger.CurrencySystem.RewardCurrency: requires that the sum fits in `int`, instead of modelling wrap-around.
- Ledger.CurrencySystem.RewardCurrencyWithCallback: requires that the sum fits in `int`, instead of modelling wrap-around.
- LedgerSpec.NegativeChargeRaisesBalance: stated only for a non-negative balance, because a negative balance below a negative amount fails the guard.
- Ledger.CurrencySystem.UpdateUI: its contract gives the appended events as the reference broadcast. What a broadcast contains is stated once, in BroadcastReportsBalances and BroadcastOfComplete, rather than repeated on the method.
- Ledger.CurrencySystem.SaveCurrency: its contract gives the new store as the reference save. What is stored is stated once, in SavedStoresEveryBalance and LoadSaveRoundTrip.
- Charge and reward call SetCurrencyAmount for their deduction or credit. The source repeats the same four steps inline (write, change event, broadcast, save), so the observable effect is identical.
- SetCurrencyAmount and LoadCurrency need no existing key, because they write through the dictionary's indexer setter, which adds a missing key. Only charge and reward read the balance first, so only they require the key.
