/** `BlockContextTracker`: the history of the block-context fields, as each write reports it. */
module BlockContext {
  import opened GoTypes
  import opened Ordering

  datatype FieldState = FieldState(value: Bytes, readers: seq<int>)

  datatype Mutation = Mutation(field: Bytes, before: Bytes, after: Bytes, writerTx: int, readerTxs: seq<int>)

  function FieldOf(fields: map<Bytes, FieldState>, name: Bytes): FieldState {
    if name in fields then fields[name] else FieldState([], [])
  }

  /** The fields of the tracker. */
  datatype State = State(fields: map<Bytes, FieldState>, currentTx: int, mutations: seq<Mutation>)
  {
    function ReadField(name: Bytes): State {
      if name !in fields || currentTx < 0 then this
      else
        var f := fields[name];
        if f.readers != [] && f.readers[|f.readers| - 1] == currentTx then this
        else this.(fields := fields[name := f.(readers := f.readers + [currentTx])])
    }

    function WriteField(name: Bytes, value: Bytes): State {
      var f := FieldOf(fields, name);
      State(fields[name := FieldState(value, [])], currentTx,
            mutations + [Mutation(name, f.value, value, currentTx, f.readers)])
    }
  }

  function Initially(initial: map<Bytes, Bytes>): State {
    State(map k | k in initial :: FieldState(initial[k], []), -1, [])
  }

  class BlockContextTracker {
    var fields: map<Bytes, FieldState>
    var currentTx: int
    var mutations: seq<Mutation>

    ghost function View(): State
      reads this
    {
      State(fields, currentTx, mutations)
    }

    constructor (initial: map<Bytes, Bytes>)
      ensures View() == Initially(initial)
    {
      currentTx := -1;
      new;
      Reset(initial);
    }

    method Reset(initial: map<Bytes, Bytes>)
      modifies this
      ensures View() == Initially(initial)
    {
      fields := map[];
      var rest := initial.Keys;
      while rest != {}
        invariant rest <= initial.Keys
        invariant fields == map k | k in initial.Keys - rest :: FieldState(initial[k], [])
        decreases rest
      {
        var k :| k in rest;
        fields := fields[k := FieldState(initial[k], [])];
        rest := rest - {k};
      }
      currentTx := -1;
      mutations := [];
    }

    method SetCurrentTx(txIndex: int)
      modifies this
      ensures View() == old(View()).(currentTx := txIndex)
    {
      currentTx := txIndex;
    }

    method ReadField(name: Bytes) returns (value: Bytes)
      modifies this
      ensures View() == old(View()).ReadField(name)
      ensures value == FieldOf(old(fields), name).value
    {
      if name !in fields {
        return [];
      }
      var field := fields[name];
      if currentTx >= 0 {
        var n := |field.readers|;
        if n == 0 || field.readers[n - 1] != currentTx {
          field := field.(readers := field.readers + [currentTx]);
          fields := fields[name := field];
        }
      }
      value := field.value;
    }

    method WriteField(name: Bytes, value: Bytes)
      modifies this
      ensures View() == old(View()).WriteField(name, value)
    {
      var field := FieldOf(fields, name);
      mutations := mutations + [Mutation(name, field.value, value, currentTx, field.readers)];
      fields := fields[name := FieldState(value, [])];
    }

    method BlockContextMutations() returns (out: seq<Mutation>)
      ensures out == mutations
    {
      out := [];
      for i := 0 to |mutations|
        invariant out == mutations[..i]
      {
        out := out + [mutations[i]];
      }
    }
  }

  // ---------- Runs ----------

  /** A call; the mutex makes each one atomic, so every concurrent run is one list of calls. */
  datatype Op =
    | SetTx(tx: int)
    | Read(name: Bytes)
    | Write(name: Bytes, value: Bytes)

  ghost function Apply(s: State, op: Op): State {
    match op
    case SetTx(tx) => s.(currentTx := tx)
    case Read(name) => s.ReadField(name)
    case Write(name, value) => s.WriteField(name, value)
  }

  ghost function Run(initial: map<Bytes, Bytes>, ops: seq<Op>): State {
    if ops == [] then Initially(initial)
    else Apply(Run(initial, ops[..|ops| - 1]), ops[|ops| - 1])
  }

  // ---------- What a field holds, told from the calls alone ----------

  /** The transaction of the last `SetCurrentTx`. */
  ghost function CurrentTx(ops: seq<Op>): int {
    if ops == [] then -1
    else
      var last := ops[|ops| - 1];
      if last.SetTx? then last.tx else CurrentTx(ops[..|ops| - 1])
  }

  ghost predicate Writes(op: Op, name: Bytes) {
    op.Write? && op.name == name
  }

  ghost predicate Exists(initial: map<Bytes, Bytes>, ops: seq<Op>, name: Bytes) {
    name in initial || exists i :: 0 <= i < |ops| && Writes(ops[i], name)
  }

  /** The last written value, or the initial one, or the empty string. */
  ghost function Value(initial: map<Bytes, Bytes>, ops: seq<Op>, name: Bytes): Bytes {
    if ops == [] then (if name in initial then initial[name] else [])
    else
      var last := ops[|ops| - 1];
      if Writes(last, name) then last.value else Value(initial, ops[..|ops| - 1], name)
  }

  /** The call at `i` is a transaction's read of the existing field with no write of the field after it. */
  ghost predicate LiveRead(initial: map<Bytes, Bytes>, ops: seq<Op>, i: nat, name: Bytes)
    requires i < |ops|
  {
    && ops[i] == Read(name) && Exists(initial, ops[..i], name) && CurrentTx(ops[..i]) >= 0
    && forall j :: i < j < |ops| ==> !Writes(ops[j], name)
  }

  /** The transactions that read the existing field since its last write. */
  ghost function Readers(initial: map<Bytes, Bytes>, ops: seq<Op>, name: Bytes): set<int> {
    set i | 0 <= i < |ops| && LiveRead(initial, ops, i, name) :: CurrentTx(ops[..i])
  }

  /** The transactions of those reads, one for each read, in order. */
  ghost function ReadTxs(initial: map<Bytes, Bytes>, ops: seq<Op>, name: Bytes): seq<int> {
    if ops == [] then []
    else
      var front, last := ops[..|ops| - 1], ops[|ops| - 1];
      if Writes(last, name) then []
      else if last == Read(name) && Exists(initial, front, name) && CurrentTx(front) >= 0 then
        ReadTxs(initial, front, name) + [CurrentTx(front)]
      else ReadTxs(initial, front, name)
  }

  /** A list with each run of equal elements replaced by one of them. */
  ghost function Collapse(s: seq<int>): seq<int> {
    if |s| < 2 then s
    else
      var front, last := s[..|s| - 1], s[|s| - 1];
      Collapse(front) + if front[|front| - 1] == last then [] else [last]
  }

  lemma {:induction false} CollapseLast(s: seq<int>)
    requires s != []
    ensures Collapse(s) != [] && Collapse(s)[|Collapse(s)| - 1] == s[|s| - 1]
  {
    if |s| >= 2 {
      CollapseLast(s[..|s| - 1]);
    }
  }

  lemma {:induction false} CollapseElements(s: seq<int>)
    ensures Elements(Collapse(s)) == Elements(s)
  {
    if |s| >= 2 {
      var front, last := s[..|s| - 1], s[|s| - 1];
      CollapseElements(front);
      assert s == front + [last];
      assert last in front || front[|front| - 1] != last;
      assert Elements(s) == Elements(front) + {last};
      assert Elements(Collapse(s)) == Elements(Collapse(front)) + if front[|front| - 1] == last then {} else {last};
    }
  }

  lemma ExistsStep(initial: map<Bytes, Bytes>, ops: seq<Op>, op: Op, name: Bytes)
    ensures Exists(initial, ops + [op], name) <==> Exists(initial, ops, name) || Writes(op, name)
  {
    var all := ops + [op];
    assert all[|ops|] == op;
    if Exists(initial, ops, name) && name !in initial {
      var i :| 0 <= i < |ops| && Writes(ops[i], name);
      assert Writes(all[i], name);
    }
    if Exists(initial, all, name) && name !in initial {
      var i :| 0 <= i < |all| && Writes(all[i], name);
      assert i < |ops| ==> ops[i] == all[i];
    }
  }

  /** The tracker's record of a field after any run. */
  lemma {:induction false} FieldAfterRun(initial: map<Bytes, Bytes>, ops: seq<Op>, name: Bytes)
    ensures Run(initial, ops).currentTx == CurrentTx(ops)
    ensures name in Run(initial, ops).fields <==> Exists(initial, ops, name)
    ensures FieldOf(Run(initial, ops).fields, name)
            == FieldState(Value(initial, ops, name), Collapse(ReadTxs(initial, ops, name)))
  {
    if ops != [] {
      var front, last := ops[..|ops| - 1], ops[|ops| - 1];
      FieldAfterRun(initial, front, name);
      assert ops == front + [last];
      ExistsStep(initial, front, last, name);
      ApplyToField(Run(initial, front), last, name);
      HistoryOfField(initial, front, last, name);
    }
  }

  lemma CollapseAppend(s: seq<int>, x: int)
    ensures
      var c := Collapse(s);
      Collapse(s + [x]) == if c != [] && c[|c| - 1] == x then c else c + [x]
  {
    assert (s + [x])[..|s|] == s;
    if s != [] {
      CollapseLast(s);
    }
  }

  /** What one call does to the tracker's record of one field. */
  ghost function FieldAfter(f: FieldState, known: bool, tx: int, op: Op, name: Bytes): FieldState {
    if Writes(op, name) then FieldState(op.value, [])
    else if op == Read(name) && known && tx >= 0
            && (f.readers == [] || f.readers[|f.readers| - 1] != tx) then f.(readers := f.readers + [tx])
    else f
  }

  lemma ApplyToField(s: State, op: Op, name: Bytes)
    ensures FieldOf(Apply(s, op).fields, name)
            == FieldAfter(FieldOf(s.fields, name), name in s.fields, s.currentTx, op, name)
  {
  }

  lemma HistoryOfField(initial: map<Bytes, Bytes>, front: seq<Op>, last: Op, name: Bytes)
    ensures FieldState(Value(initial, front + [last], name), Collapse(ReadTxs(initial, front + [last], name)))
            == FieldAfter(FieldState(Value(initial, front, name), Collapse(ReadTxs(initial, front, name))),
                          Exists(initial, front, name), CurrentTx(front), last, name)
  {
    var ops := front + [last];
    assert ops[..|ops| - 1] == front && ops[|ops| - 1] == last;
    CollapseAppend(ReadTxs(initial, front, name), CurrentTx(front));
  }

  /** No transaction that read the field is left out of the report, and none is added. */
  lemma {:induction false} ReadTxsExact(initial: map<Bytes, Bytes>, ops: seq<Op>, name: Bytes)
    ensures Elements(ReadTxs(initial, ops, name)) == Readers(initial, ops, name)
  {
    if ops != [] {
      var front, last := ops[..|ops| - 1], ops[|ops| - 1];
      assert ops == front + [last];
      ReadTxsExact(initial, front, name);
      ReadersStep(initial, front, last, name);
    }
  }

  lemma ReadersStep(initial: map<Bytes, Bytes>, front: seq<Op>, last: Op, name: Bytes)
    ensures Readers(initial, front + [last], name) ==
            if Writes(last, name) then {}
            else if last == Read(name) && Exists(initial, front, name) && CurrentTx(front) >= 0 then
              Readers(initial, front, name) + {CurrentTx(front)}
            else Readers(initial, front, name)
  {
    var ops := front + [last];
    assert ops[|front|] == last && ops[..|front|] == front;
    forall i | 0 <= i < |front|
      ensures ops[..i] == front[..i]
      ensures LiveRead(initial, ops, i, name) <==> LiveRead(initial, front, i, name) && !Writes(last, name)
    {
      LiveReadStep(initial, front, last, i, name);
    }
    forall tx
      ensures tx in Readers(initial, ops, name) <==>
              || (!Writes(last, name) && tx in Readers(initial, front, name))
              || (LiveRead(initial, ops, |front|, name) && tx == CurrentTx(front))
    {
      if !Writes(last, name) && tx in Readers(initial, front, name) {
        var i :| 0 <= i < |front| && LiveRead(initial, front, i, name) && tx == CurrentTx(front[..i]);
        assert LiveRead(initial, ops, i, name) && tx == CurrentTx(ops[..i]);
      }
    }
  }

  lemma LiveReadStep(initial: map<Bytes, Bytes>, front: seq<Op>, last: Op, i: nat, name: Bytes)
    requires i < |front|
    ensures (front + [last])[..i] == front[..i]
    ensures LiveRead(initial, front + [last], i, name) <==>
            LiveRead(initial, front, i, name) && !Writes(last, name)
  {
    var ops := front + [last];
    assert ops[..i] == front[..i];
    assert forall j :: i < j < |front| ==> ops[j] == front[j];
    assert ops[|front|] == last;
  }

  // ---------- The reported mutations ----------

  ghost function WriteCount(ops: seq<Op>): nat {
    if ops == [] then 0
    else WriteCount(ops[..|ops| - 1]) + if ops[|ops| - 1].Write? then 1 else 0
  }

  /** Each write is reported once, in order, with the value it replaced, its transaction and its readers. */
  lemma {:induction false} MutationOfWrite(initial: map<Bytes, Bytes>, ops: seq<Op>, i: nat)
    requires i < |ops| && ops[i].Write?
    ensures |Run(initial, ops).mutations| == WriteCount(ops)
    ensures WriteCount(ops[..i]) < WriteCount(ops)
    ensures
      var m := Run(initial, ops).mutations[WriteCount(ops[..i])];
      && m.field == ops[i].name && m.after == ops[i].value
      && m.before == Value(initial, ops[..i], m.field)
      && m.writerTx == CurrentTx(ops[..i])
      && m.readerTxs == Collapse(ReadTxs(initial, ops[..i], m.field))
      && Elements(m.readerTxs) == Readers(initial, ops[..i], m.field)
  {
    var front := ops[..|ops| - 1];
    MutationCount(initial, front);
    if i < |ops| - 1 {
      MutationOfWrite(initial, front, i);
      assert front[..i] == ops[..i];
    } else {
      var name := ops[i].name;
      FieldAfterRun(initial, front, name);
      CollapseElements(ReadTxs(initial, front, name));
      ReadTxsExact(initial, front, name);
    }
  }

  lemma {:induction false} MutationCount(initial: map<Bytes, Bytes>, ops: seq<Op>)
    ensures |Run(initial, ops).mutations| == WriteCount(ops)
  {
    if ops != [] {
      MutationCount(initial, ops[..|ops| - 1]);
    }
  }

  /** The mutations of one field. */
  ghost function OfField(ms: seq<Mutation>, name: Bytes): seq<Mutation> {
    if ms == [] then []
    else OfField(ms[..|ms| - 1], name) + if ms[|ms| - 1].field == name then [ms[|ms| - 1]] else []
  }

  /** The mutations lead from one value to the other without a gap. */
  ghost predicate Chain(from: Bytes, ms: seq<Mutation>, to: Bytes) {
    if ms == [] then from == to
    else
      && ms[0].before == from
      && (forall k :: 0 < k < |ms| ==> ms[k].before == ms[k - 1].after)
      && ms[|ms| - 1].after == to
  }

  lemma ChainAppend(from: Bytes, ms: seq<Mutation>, to: Bytes, m: Mutation)
    requires Chain(from, ms, to) && m.before == to
    ensures Chain(from, ms + [m], m.after)
  {
  }

  lemma OfFieldAppend(ms: seq<Mutation>, m: Mutation, name: Bytes)
    ensures OfField(ms + [m], name) == OfField(ms, name) + if m.field == name then [m] else []
  {
    assert (ms + [m])[..|ms|] == ms;
  }

  /** The field's mutations in a state lead from `from` to its value there. */
  ghost predicate ChainTo(from: Bytes, s: State, name: Bytes) {
    Chain(from, OfField(s.mutations, name), FieldOf(s.fields, name).value)
  }

  lemma ChainWrite(from: Bytes, s: State, name: Bytes, written: Bytes, value: Bytes)
    requires ChainTo(from, s, name)
    ensures ChainTo(from, s.WriteField(written, value), name)
  {
    var f := FieldOf(s.fields, written);
    var m := Mutation(written, f.value, value, s.currentTx, f.readers);
    OfFieldAppend(s.mutations, m, name);
    if written == name {
      ChainAppend(from, OfField(s.mutations, name), f.value, m);
    } else {
      assert OfField(s.mutations, name) + [] == OfField(s.mutations, name);
    }
  }

  /** In every reachable state the mutations of a field lead from its initial value to its current one. */
  lemma {:induction false} ChainTheorem(initial: map<Bytes, Bytes>, ops: seq<Op>, name: Bytes)
    ensures ChainTo(FieldOf(Initially(initial).fields, name).value, Run(initial, ops), name)
  {
    if ops != [] {
      var from := FieldOf(Initially(initial).fields, name).value;
      var s, last := Run(initial, ops[..|ops| - 1]), ops[|ops| - 1];
      ChainTheorem(initial, ops[..|ops| - 1], name);
      if last.Write? {
        ChainWrite(from, s, name, last.name, last.value);
      }
    }
  }

  // ---------- When the readers are increasing ----------

  ghost predicate Increasing(s: seq<int>) {
    forall i, j :: 0 <= i < j < |s| ==> s[i] < s[j]
  }

  lemma {:induction false} CollapseIncreasing(s: seq<int>)
    ensures Increasing(Collapse(s)) <==> Sorted(IntLeq, s)
  {
    if |s| >= 2 {
      var front, last := s[..|s| - 1], s[|s| - 1];
      CollapseIncreasing(front);
      CollapseLast(front);
      var c := Collapse(front);
      assert s == front + [last] && c + [] == c;
      SortedAppend(front, last);
      IncreasingAppend(c, last);
    }
  }

  lemma SortedAppend(s: seq<int>, x: int)
    requires s != []
    ensures Sorted(IntLeq, s + [x]) <==> Sorted(IntLeq, s) && s[|s| - 1] <= x
  {
    var t := s + [x];
    assert t[|s|] == x && t[|s| - 1] == s[|s| - 1];
    if Sorted(IntLeq, t) {
      assert IntLeq(t[|s| - 1], t[|s|]);
      forall i, j | 0 <= i < j < |s|
        ensures IntLeq(s[i], s[j])
      {
        assert IntLeq(t[i], t[j]);
      }
    }
    if Sorted(IntLeq, s) && s[|s| - 1] <= x {
      forall i | 0 <= i < |s|
        ensures IntLeq(s[i], x)
      {
        assert i < |s| - 1 ==> IntLeq(s[i], s[|s| - 1]);
      }
    }
  }

  lemma IncreasingAppend(s: seq<int>, x: int)
    requires s != []
    ensures Increasing(s + [x]) <==> Increasing(s) && s[|s| - 1] < x
  {
    var t := s + [x];
    assert t[|s|] == x && forall i :: 0 <= i < |s| ==> t[i] == s[i];
    if Increasing(t) {
      assert t[|s| - 1] < t[|s|];
    }
  }

  /** The transaction index never goes down. */
  ghost predicate Ascending(ops: seq<Op>) {
    forall i, j :: 0 <= i < j < |ops| && ops[i].SetTx? && ops[j].SetTx? ==> ops[i].tx <= ops[j].tx
  }

  lemma {:induction false} CurrentTxIsSet(ops: seq<Op>)
    ensures CurrentTx(ops) == -1 || exists i :: 0 <= i < |ops| && ops[i] == SetTx(CurrentTx(ops))
  {
    if ops != [] && !ops[|ops| - 1].SetTx? {
      var front := ops[..|ops| - 1];
      CurrentTxIsSet(front);
      if CurrentTx(front) != -1 {
        var i :| 0 <= i < |front| && front[i] == SetTx(CurrentTx(front));
        assert ops[i] == SetTx(CurrentTx(ops));
      }
    } else if ops != [] {
      assert ops[|ops| - 1] == SetTx(CurrentTx(ops));
    }
  }

  lemma {:induction false} ReadTxsSorted(initial: map<Bytes, Bytes>, ops: seq<Op>, name: Bytes)
    requires Ascending(ops)
    ensures Sorted(IntLeq, ReadTxs(initial, ops, name))
    ensures forall tx :: tx in ReadTxs(initial, ops, name) ==> 0 <= tx <= CurrentTx(ops)
  {
    if ops != [] {
      var front, last := ops[..|ops| - 1], ops[|ops| - 1];
      ReadTxsSorted(initial, front, name);
      if last.SetTx? && ReadTxs(initial, front, name) != [] {
        assert ReadTxs(initial, front, name)[0] in ReadTxs(initial, front, name);
        CurrentTxIsSet(front);
        var i :| 0 <= i < |front| && front[i] == SetTx(CurrentTx(front));
        assert ops[i].tx <= ops[|ops| - 1].tx;
      }
      var past := ReadTxs(initial, front, name);
      if past != [] {
        assert past[|past| - 1] in past;
        SortedAppend(past, CurrentTx(front));
      }
    }
  }

  /** The reported readers are strictly increasing exactly when the reads themselves never step back, which
      holds in every run whose transaction index never goes down. */
  lemma ReadersIncreasing(initial: map<Bytes, Bytes>, ops: seq<Op>, name: Bytes)
    ensures Increasing(FieldOf(Run(initial, ops).fields, name).readers)
            <==> Sorted(IntLeq, ReadTxs(initial, ops, name))
    ensures Ascending(ops) ==> Increasing(FieldOf(Run(initial, ops).fields, name).readers)
  {
    FieldAfterRun(initial, ops, name);
    CollapseIncreasing(ReadTxs(initial, ops, name));
    if Ascending(ops) {
      ReadTxsSorted(initial, ops, name);
    }
  }

  /** A run that steps back: one transaction is reported as a reader twice. */
  lemma ReadersRepeat(name: Bytes, value: Bytes)
    ensures
      var ops := [SetTx(0), Read(name), SetTx(1), Read(name), SetTx(0), Read(name)];
      FieldOf(Run(map[name := value], ops).fields, name).readers == [0, 1, 0]
  {
    var initial := map[name := value];
    var ops := [SetTx(0), Read(name), SetTx(1), Read(name), SetTx(0), Read(name)];
    assert ops[..6] == ops;
    assert ops[..6][..5] == ops[..5] && ops[..5][..4] == ops[..4] && ops[..4][..3] == ops[..3];
    assert ops[..3][..2] == ops[..2] && ops[..2][..1] == ops[..1] && ops[..1][..0] == ops[..0] == [];
    var s := Initially(initial);
    assert Run(initial, ops[..1]) == s.(currentTx := 0);
    assert FieldOf(Run(initial, ops[..2]).fields, name).readers == [0];
    assert FieldOf(Run(initial, ops[..4]).fields, name).readers == [0, 1];
  }
}
