/**
 * What both attachment validators share: option values after Proc
 * resolution, `Hash#slice` over the recognised option keys, the outcome of
 * one `validate_each` call (messages added, then possibly an exception),
 * and the record's error list that those messages are added to.
 */
module ValidatorSupport {
  import opened Wrappers
  import opened RubyText

  /** An option value once any Proc has been called: `nil` or an Integer. */
  datatype Value = Nil | Int(n: int)

  /** `Object#blank?` on an option value: only `nil` is blank, numbers never are. */
  predicate IsBlankValue(v: Value) {
    v.Nil?
  }

  /** `"#{v}"`: `nil` interpolates as the empty string. */
  function ValueToS(v: Value): string {
    match v
    case Nil => ""
    case Int(n) => IntToS(n)
  }

  /** A configured option: a literal, or a Proc of the record being validated. */
  datatype Setting<-R> = Literal(value: Value) | Proc(call: R -> Value)

  /** `option_value = option_value.call(record) if option_value.is_a?(Proc)` */
  function Resolve<R>(setting: Setting<R>, record: R): (v: Value)
    ensures setting.Literal? ==> v == setting.value
    ensures setting.Proc? ==> v == setting.call(record)
  {
    match setting
    case Literal(v) => v
    case Proc(call) => call(record)
  }

  /**
   * The keys of `options.slice(*keys)`, in iteration order. Ruby builds the
   * sliced hash by walking the requested keys, so the order is that of
   * `keys`, not of the options hash; a key requested twice appears once.
   */
  function SliceKeys(present: set<string>, keys: seq<string>): (r: seq<string>)
    ensures forall k :: k in r <==> k in keys && k in present
    ensures forall i, j | 0 <= i < j < |r| :: r[i] != r[j]
    ensures |r| <= |keys|
  {
    if keys == [] then []
    else
      var rest := SliceKeys(present, keys[..|keys| - 1]);
      var k := keys[|keys| - 1];
      assert forall x | x in keys[..|keys| - 1] :: x in keys;
      if k in present && k !in rest then rest + [k] else rest
  }

  /** Slicing two distinct keys keeps them in the requested order. */
  lemma SliceTwoKeys(present: set<string>, a: string, b: string)
    requires a != b
    ensures SliceKeys(present, [a, b])
         == (if a in present then [a] else []) + (if b in present then [b] else [])
  {
    assert [a, b][..1] == [a];
    assert [a][..0] == [];
  }

  /** The sliced options with every value resolved against the record. */
  function ResolvedSlice<R>(options: map<string, Setting<R>>, record: R, keys: seq<string>)
    : (r: seq<(string, Value)>)
    ensures |r| == |SliceKeys(options.Keys, keys)|
    ensures forall i | 0 <= i < |r| ::
              r[i].0 == SliceKeys(options.Keys, keys)[i] && r[i].0 in options
              && r[i].1 == Resolve(options[r[i].0], record)
  {
    var ks := SliceKeys(options.Keys, keys);
    seq(|ks|, i requires 0 <= i < |ks| => (ks[i], Resolve(options[ks[i]], record)))
  }

  /** The sliced entry for `option`: present when the key is. */
  function Entry<R>(options: map<string, Setting<R>>, record: R, option: string): seq<(string, Value)> {
    if option in options then [(option, Resolve(options[option], record))] else []
  }

  /** Slicing two distinct keys yields the first's entry, then the second's. */
  lemma ResolvedSliceOfTwo<R>(options: map<string, Setting<R>>, record: R, a: string, b: string)
    requires a != b
    ensures ResolvedSlice(options, record, [a, b]) == Entry(options, record, a) + Entry(options, record, b)
  {
    SliceTwoKeys(options.Keys, a, b);
  }

  /** The exceptions a validation run can end with. */
  datatype RubyError = ArgumentError(message: string) | NoMethodError(name: string)

  /**
   * What one `validate_each` call does to the record: the messages it adds,
   * in order, and the exception that stopped it, if any.
   */
  datatype Outcome = Outcome(added: seq<string>, raised: Option<RubyError>)

  const Nothing := Outcome([], None)

  /** Run `first`, then `next` unless `first` raised. */
  function Then(first: Outcome, next: Outcome): (r: Outcome)
    ensures first.raised.Some? ==> r == first
    ensures first.raised.None? ==> r.added == first.added + next.added && r.raised == next.raised
  {
    if first.raised.Some? then first
    else Outcome(first.added + next.added, next.raised)
  }

  /** One pass of an `each` loop over the resolved options. */
  function Each(step: (string, Value) -> Outcome, entries: seq<(string, Value)>): Outcome
    decreases |entries|
  {
    if entries == [] then Nothing
    else Then(step(entries[0].0, entries[0].1), Each(step, entries[1..]))
  }

  /** Running a loop over two halves is running it over the whole. */
  lemma {:induction false} EachConcat(step: (string, Value) -> Outcome, front: seq<(string, Value)>, back: seq<(string, Value)>)
    ensures Each(step, front + back) == Then(Each(step, front), Each(step, back))
    decreases |front|
  {
    if front == [] {
      assert front + back == back;
    } else {
      assert (front + back)[1..] == front[1..] + back;
      EachConcat(step, front[1..], back);
    }
  }

  /** A loop over one entry is that entry's step. */
  lemma EachSingle(step: (string, Value) -> Outcome, entry: (string, Value))
    ensures Each(step, [entry]) == step(entry.0, entry.1)
  {
    assert [entry][1..] == [];
  }

  /** The loop over two sliced keys runs the first key's step, then the second's. */
  lemma EachOverTwo<R>(step: (string, Value) -> Outcome, options: map<string, Setting<R>>, record: R, a: string, b: string)
    requires a != b
    ensures Each(step, ResolvedSlice(options, record, [a, b]))
         == Then(Each(step, Entry(options, record, a)), Each(step, Entry(options, record, b)))
  {
    ResolvedSliceOfTwo(options, record, a, b);
    EachConcat(step, Entry(options, record, a), Entry(options, record, b));
  }

  /** The loop after `i + 1` iterations is the loop after `i`, then one more step. */
  lemma {:induction false} EachExtend(step: (string, Value) -> Outcome, entries: seq<(string, Value)>, i: nat)
    requires i < |entries|
    ensures Each(step, entries[..i + 1]) == Then(Each(step, entries[..i]), step(entries[i].0, entries[i].1))
    decreases i
  {
    if i > 0 {
      var head, last := step(entries[0].0, entries[0].1), step(entries[i].0, entries[i].1);
      assert entries[1..][..i] == entries[..i + 1][1..];
      assert entries[1..][..i - 1] == entries[..i][1..];
      EachExtend(step, entries[1..], i - 1);
      ThenAssociative(head, Each(step, entries[..i][1..]), last);
    }
  }

  /** Running `a`, then `b`, then `c` does not depend on the grouping. */
  lemma ThenAssociative(a: Outcome, b: Outcome, c: Outcome)
    ensures Then(Then(a, b), c) == Then(a, Then(b, c))
  {
    if a.raised.None? && b.raised.None? {
      assert (a.added + b.added) + c.added == a.added + (b.added + c.added);
    }
  }

  /** One turn of a loop that has not raised yet adds what the step adds and ends as the step ends. */
  lemma EachStep(step: (string, Value) -> Outcome, entries: seq<(string, Value)>, i: nat, option: string, value: Value)
    requires i < |entries| && entries[i] == (option, value)
    requires Each(step, entries[..i]).raised.None?
    ensures Each(step, entries[..i + 1]).added == Each(step, entries[..i]).added + step(option, value).added
    ensures Each(step, entries[..i + 1]).raised == step(option, value).raised
  {
    EachExtend(step, entries, i);
  }

  /** Once the loop has raised, the entries after that point play no part. */
  lemma {:induction false} EachStopsAtRaise(step: (string, Value) -> Outcome, entries: seq<(string, Value)>, i: nat)
    requires i <= |entries| && Each(step, entries[..i]).raised.Some?
    ensures Each(step, entries) == Each(step, entries[..i])
    decreases i
  {
    assert i > 0;
    if step(entries[0].0, entries[0].1).raised.None? {
      assert entries[..i][1..] == entries[1..][..i - 1];
      EachStopsAtRaise(step, entries[1..], i - 1);
    }
  }

  /** A loop whose steps each add at most one message adds at most one per entry. */
  lemma {:induction false} EachAddsAtMostOnePerEntry(step: (string, Value) -> Outcome, entries: seq<(string, Value)>)
    requires forall k, v :: |step(k, v).added| <= 1
    ensures |Each(step, entries).added| <= |entries|
    decreases |entries|
  {
    if entries != [] {
      EachAddsAtMostOnePerEntry(step, entries[1..]);
    }
  }

  /** One entry of `record.errors`: the attribute and its message. */
  datatype ErrorEntry = ErrorEntry(attribute: string, message: string)

  function Tagged(attribute: string, messages: seq<string>): (r: seq<ErrorEntry>)
    ensures |r| == |messages|
    ensures forall i | 0 <= i < |r| :: r[i] == ErrorEntry(attribute, messages[i])
  {
    seq(|messages|, i requires 0 <= i < |messages| => ErrorEntry(attribute, messages[i]))
  }

  lemma TaggedAppend(attribute: string, messages: seq<string>, more: seq<string>)
    ensures Tagged(attribute, messages + more) == Tagged(attribute, messages) + Tagged(attribute, more)
  {
  }

  /**
   * The invariant of a loop that appends each entry's messages to a list
   * that started as `base`: after `i` turns nothing has raised and the list
   * is `base` followed by what `Each` adds over the first `i` entries.
   */
  ghost predicate Progress(step: (string, Value) -> Outcome, entries: seq<(string, Value)>,
                           attribute: string, base: seq<ErrorEntry>, current: seq<ErrorEntry>, i: nat)
  {
    && i <= |entries|
    && Each(step, entries[..i]).raised.None?
    && current == base + Tagged(attribute, Each(step, entries[..i]).added)
  }

  lemma ProgressStart(step: (string, Value) -> Outcome, entries: seq<(string, Value)>,
                      attribute: string, base: seq<ErrorEntry>)
    ensures Progress(step, entries, attribute, base, base, 0)
  {
    assert entries[..0] == [];
    assert base + Tagged(attribute, []) == base;
  }

  /** One more turn appends the step's messages to the list and ends as the step ends. */
  lemma ProgressAppend(step: (string, Value) -> Outcome, entries: seq<(string, Value)>,
                       attribute: string, base: seq<ErrorEntry>, current: seq<ErrorEntry>, i: nat,
                       option: string, value: Value)
    requires Progress(step, entries, attribute, base, current, i)
    requires i < |entries| && entries[i] == (option, value)
    ensures current + Tagged(attribute, step(option, value).added)
         == base + Tagged(attribute, Each(step, entries[..i + 1]).added)
    ensures Each(step, entries[..i + 1]).raised == step(option, value).raised
  {
    var before, now := Each(step, entries[..i]), step(option, value);
    EachStep(step, entries, i, option, value);
    TaggedAppend(attribute, before.added, now.added);
  }

  /** One more turn that does not raise keeps the invariant. */
  lemma ProgressTurn(step: (string, Value) -> Outcome, entries: seq<(string, Value)>,
                     attribute: string, base: seq<ErrorEntry>, current: seq<ErrorEntry>, i: nat,
                     option: string, value: Value)
    requires Progress(step, entries, attribute, base, current, i)
    requires i < |entries| && entries[i] == (option, value) && step(option, value).raised.None?
    ensures Progress(step, entries, attribute, base, current + Tagged(attribute, step(option, value).added), i + 1)
  {
    ProgressAppend(step, entries, attribute, base, current, i, option, value);
  }

  /**
   * A turn that raises ends the loop: with the step's messages appended the
   * list holds everything the whole loop adds, and the loop raises what the
   * step raised.
   */
  lemma ProgressRaise(step: (string, Value) -> Outcome, entries: seq<(string, Value)>,
                      attribute: string, base: seq<ErrorEntry>, current: seq<ErrorEntry>, i: nat,
                      option: string, value: Value)
    requires Progress(step, entries, attribute, base, current, i)
    requires i < |entries| && entries[i] == (option, value) && step(option, value).raised.Some?
    ensures current + Tagged(attribute, step(option, value).added) == base + Tagged(attribute, Each(step, entries).added)
    ensures Each(step, entries).raised == step(option, value).raised
  {
    ProgressAppend(step, entries, attribute, base, current, i, option, value);
    EachStopsAtRaise(step, entries, i + 1);
  }

  /** A loop that ran over every entry without raising has added what `Each` adds. */
  lemma ProgressEnd(step: (string, Value) -> Outcome, entries: seq<(string, Value)>,
                    attribute: string, base: seq<ErrorEntry>, current: seq<ErrorEntry>, i: nat)
    requires Progress(step, entries, attribute, base, current, i) && i >= |entries|
    ensures current == base + Tagged(attribute, Each(step, entries).added)
    ensures Each(step, entries).raised.None?
  {
    assert entries[..i] == entries;
  }

  /** `record.errors`, the list the validators append to. */
  class Errors {
    var entries: seq<ErrorEntry>

    constructor ()
      ensures entries == []
    {
      entries := [];
    }

    /** `errors.add(attribute, message)` */
    method Add(attribute: string, message: string)
      modifies this
      ensures entries == old(entries) + [ErrorEntry(attribute, message)]
    {
      entries := entries + [ErrorEntry(attribute, message)];
    }
  }
}
