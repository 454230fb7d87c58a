/** The three debounced loaders (`useDebounceFn(loadHtml)`, ... ), reduced to
    what they hold between calls: for each kind, the code the trailing call
    will load once its quiet time has passed. Timers themselves are not
    modelled: a call overwrites its kind's slot and restarts that kind's
    timer, and a timer that fires loads its slot's code and empties it. */
module Debounce {
  import opened Wrappers
  import opened Dom

  /** Per kind with a timer running, the argument of the latest call. */
  type Slots = map<Kind, string>

  /** `debounceLoad<k>(dt, code)`: only kind `k`'s slot changes, to `code`. */
  function Run(s: Slots, k: Kind, code: string): (r: Slots)
    ensures k in r && r[k] == code
    ensures forall k' :: k' != k ==> (k' in r <==> k' in s)
    ensures forall k' :: k' != k && k' in s ==> r[k'] == s[k']
  {
    s[k := code]
  }

  /** Kind `k`'s timer fires: its slot is emptied, the others stay. */
  function Fire(s: Slots, k: Kind): (r: Slots)
    ensures k !in r
    ensures forall k' :: k' != k ==> (k' in r <==> k' in s)
    ensures forall k' :: k' != k && k' in s ==> r[k'] == s[k']
  {
    s - {k}
  }

  /** One call of a debounced loader. */
  datatype Call = Call(kind: Kind, code: string)

  /** The slots after a burst of calls, none of whose timers has fired. */
  function RunAll(s: Slots, calls: seq<Call>): Slots {
    if calls == [] then s
    else
      var last := calls[|calls| - 1];
      Run(RunAll(s, calls[..|calls| - 1]), last.kind, last.code)
  }

  /** The code of the last call of kind `k`, if any. */
  function Latest(calls: seq<Call>, k: Kind): Option<string> {
    if calls == [] then None
    else if calls[|calls| - 1].kind == k then Some(calls[|calls| - 1].code)
    else Latest(calls[..|calls| - 1], k)
  }

  /** Coalescing: after a burst, a kind's slot holds the code of its last
      call (never an earlier one), or what it held before if the burst had
      no call of that kind; calls of other kinds do not touch it. */
  lemma {:induction false} Coalesce(s: Slots, calls: seq<Call>, k: Kind)
    ensures var r := RunAll(s, calls);
            && (k in r <==> k in s || Latest(calls, k).Some?)
            && (Latest(calls, k).Some? ==> r[k] == Latest(calls, k).value)
            && (Latest(calls, k).None? && k in s ==> r[k] == s[k])
  {
    if calls != [] {
      Coalesce(s, calls[..|calls| - 1], k);
    }
  }

  /** A burst of edits of one kind leaves one pending load, carrying the last edit. */
  lemma {:induction false} BurstLoadsLast(s: Slots, k: Kind, codes: seq<string>)
    requires codes != []
    ensures var calls := seq(|codes|, i requires 0 <= i < |codes| => Call(k, codes[i]));
            RunAll(s, calls)[k] == codes[|codes| - 1]
  {
    var calls := seq(|codes|, i requires 0 <= i < |codes| => Call(k, codes[i]));
    Coalesce(s, calls, k);
  }
}
