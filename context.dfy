/** The evaluation context (src/context.rs): the store of named values, where every result
    the calculator prints is kept under a fresh hexadecimal name, and the history of entered
    lines with the offset the history keys move (src/interface/history.rs). Values are
    `f64` in the source; here they are `real`s that are only stored and handed back. */
module Contexts {
  import opened Wrappers

  // ---------------------------------------------------------------------------------------
  // The slot key: `format!` with the lower-case hexadecimal specifier

  const HEX_DIGITS: string := "0123456789abcdef"

  /** Lower-case hexadecimal without leading zeros; zero is "0". */
  function Hex(n: nat): (r: string)
    ensures |r| > 0
    decreases n
  {
    if n < 16 then [HEX_DIGITS[n]] else Hex(n / 16) + [HEX_DIGITS[n % 16]]
  }

  /** The value of a hexadecimal digit. */
  function DigitValue(c: char): nat
  {
    if '0' <= c <= '9' then (c - '0') as nat
    else if 'a' <= c <= 'f' then (c - 'a') as nat + 10
    else 0
  }

  /** Reading hexadecimal digits back, the partner of `Hex`. */
  function Unhex(s: string): nat
  {
    if s == [] then 0 else Unhex(s[..|s| - 1]) * 16 + DigitValue(s[|s| - 1])
  }

  lemma DigitRoundTrip(d: nat)
    requires d < 16
    ensures DigitValue(HEX_DIGITS[d]) == d
  {
  }

  lemma {:induction false} HexRoundTrip(n: nat)
    ensures Unhex(Hex(n)) == n
    decreases n
  {
    var r := Hex(n);
    if n < 16 {
      DigitRoundTrip(n);
      assert r[..0] == [];
    } else {
      DigitRoundTrip(n % 16);
      HexRoundTrip(n / 16);
      assert r[..|r| - 1] == Hex(n / 16);
    }
  }

  /** Different indices get different names. */
  lemma HexInjective(a: nat, b: nat)
    ensures Hex(a) == Hex(b) ==> a == b
  {
    HexRoundTrip(a);
    HexRoundTrip(b);
  }

  // ---------------------------------------------------------------------------------------
  // The index `push_value` settles on

  /** The largest index any of the taken names reads as. */
  ghost function MaxIndex(keys: set<string>): nat
    decreases keys
  {
    if keys == {} then 0
    else
      var key :| key in keys;
      var rest := MaxIndex(keys - {key});
      if Unhex(key) > rest then Unhex(key) else rest
  }

  lemma {:induction false} MaxIndexBounds(keys: set<string>, name: string)
    requires name in keys
    ensures Unhex(name) <= MaxIndex(keys)
    decreases keys
  {
    var key :| key in keys && MaxIndex(keys) == (var rest := MaxIndex(keys - {key}); if Unhex(key) > rest then Unhex(key) else rest);
    if name != key {
      MaxIndexBounds(keys - {key}, name);
    }
  }

  /** A taken name belongs to an index no larger than `MaxIndex`: past it, every name is
      free, which is what makes the probing loop terminate. */
  lemma ProbeBounded(keys: set<string>, k: nat)
    requires Hex(k) in keys
    ensures k <= MaxIndex(keys)
  {
    HexRoundTrip(k);
    MaxIndexBounds(keys, Hex(k));
  }

  /** The name of index `j` is taken. */
  predicate Taken(variables: map<string, real>, j: nat)
  {
    Hex(j) in variables
  }

  /** The first index at or above `k` whose name is not taken in `variables`: every index
      it skips is taken, and it is not. */
  function FreeIndex(variables: map<string, real>, k: nat): (r: nat)
    ensures k <= r && !Taken(variables, r)
    ensures forall j :: k <= j < r ==> Taken(variables, j)
    decreases MaxIndex(variables.Keys) + 1 - k
  {
    if !Taken(variables, k) then k
    else
      ProbeBounded(variables.Keys, k);
      FreeIndex(variables, k + 1)
  }

  /** Two values pushed one after the other get increasing indices and distinct names;
      the first keeps its value. */
  lemma {:induction false} PushTwice(variables: map<string, real>, counter: nat, first: real, second: real)
    ensures var i := FreeIndex(variables, counter);
      var after := variables[Hex(i) := first];
      var j := FreeIndex(after, i + 1);
      i < j && Hex(i) != Hex(j) && after[Hex(j) := second][Hex(i)] == first
  {
    var i := FreeIndex(variables, counter);
    var after := variables[Hex(i) := first];
    var j := FreeIndex(after, i + 1);
    HexInjective(i, j);
  }

  // ---------------------------------------------------------------------------------------
  // The context

  class Context {
    var currentIndex: nat
    var variables: map<string, real>
    var history: seq<string>
    var historyOffset: nat
    var expression: string

    /** The history offset never points past the oldest entry: it starts at zero, only the
        history keys move it, and they keep it within the history. */
    ghost predicate Valid()
      reads this
    {
      historyOffset <= |history|
    }

    /** `Context::default()`. */
    constructor()
      ensures Valid()
      ensures currentIndex == 0 && variables == map[] && history == [] && historyOffset == 0 && expression == []
    {
      currentIndex := 0;
      variables := map[];
      history := [];
      historyOffset := 0;
      expression := [];
    }

    /** `push_value` (src/context.rs:14-26): store `value` under the first free name at or
        above the counter, and move the counter past it. */
    method PushValue(value: real) returns (index: nat)
      modifies this`currentIndex, this`variables
      ensures index == FreeIndex(old(variables), old(currentIndex)) && currentIndex == index + 1
      ensures Hex(index) !in old(variables) && variables == old(variables)[Hex(index) := value]
    {
      while Taken(variables, currentIndex)
        invariant FreeIndex(variables, currentIndex) == FreeIndex(old(variables), old(currentIndex))
        invariant variables == old(variables)
        decreases MaxIndex(variables.Keys) + 1 - currentIndex
      {
        ProbeBounded(variables.Keys, currentIndex);
        currentIndex := currentIndex + 1;
      }
      index := currentIndex;
      currentIndex := currentIndex + 1;
      variables := variables[Hex(index) := value];
    }

    /** `push_history` (src/context.rs:28-30). */
    method PushHistory(line: string)
      requires Valid()
      modifies this`history
      ensures Valid() && history == old(history) + [line]
    {
      history := history + [line];
    }

    /** `history` (src/context.rs:32-35): the entry `historyOffset` places back from the
        end, if there is one. */
    function History(): (r: Option<string>)
      reads this
      ensures r.Some? <==> 1 <= historyOffset <= |history|
      ensures r.Some? ==> r.value == history[|history| - historyOffset]
    {
      if historyOffset > |history| then None
      else
        var index := |history| - historyOffset;
        if index < |history| then Some(history[index]) else None
    }

    /** `history_up` without the redraw (src/interface/history.rs:9-24): step one entry
        further back if there is one, and load it. */
    method HistoryUp()
      requires Valid()
      modifies this`historyOffset, this`expression
      ensures Valid()
      ensures old(historyOffset) < |history| ==>
        historyOffset == old(historyOffset) + 1 && expression == history[|history| - historyOffset]
      ensures old(historyOffset) == |history| ==>
        historyOffset == old(historyOffset) && expression == old(expression)
    {
      historyOffset := historyOffset + 1;
      var entry := History();
      match entry
      case None =>
        historyOffset := historyOffset - 1;
      case Some(line) =>
        expression := line;
    }

    /** `history_down` without the redraw (src/interface/history.rs:26-42): step one entry
        forward, down to the empty line at offset zero. Under `Valid` the `unwrap` of
        `history()` never fails. */
    method HistoryDown()
      requires Valid()
      modifies this`historyOffset, this`expression
      ensures Valid()
      ensures historyOffset == if old(historyOffset) == 0 then 0 else old(historyOffset) - 1
      ensures historyOffset == 0 ==> expression == []
      ensures historyOffset > 0 ==> expression == history[|history| - historyOffset]
    {
      historyOffset := if historyOffset == 0 then 0 else historyOffset - 1;
      if historyOffset == 0 {
        expression := [];
      } else {
        var entry := History();
        expression := entry.value;
      }
    }
  }
}
