/** What the texts of findings tell: which write sets and events they keep apart. */
module FindingText {
  import opened GoTypes
  import opened Text
  import opened Comparison
  import Observer
  import opened StatePattern

  const EQUALS: byte := 0x3D

  // ---------- Joined lists ----------

  lemma {:induction false} JoinLast(parts: seq<Bytes>, last: Bytes, sep: byte)
    requires parts != []
    ensures Join(parts + [last], sep) == Join(parts, sep) + [sep] + last
  {
    var all := parts + [last];
    assert all[1..] == parts[1..] + [last];
    if |parts| == 1 {
      assert all[1..] == [last] && Join([last], sep) == last + [];
      assert parts[0] + ([sep] + last) == parts[0] + [] + [sep] + last;
    } else {
      JoinLast(parts[1..], last, sep);
      assert parts[0] + ([sep] + (Join(parts[1..], sep) + [sep] + last)) ==
             parts[0] + ([sep] + Join(parts[1..], sep)) + [sep] + last;
    }
  }

  /** A byte other than the separator occurs in a joined list exactly if it occurs in a part. */
  lemma {:induction false} JoinContains(parts: seq<Bytes>, sep: byte, c: byte)
    requires c != sep
    ensures c in Join(parts, sep) <==> exists p :: p in parts && c in p
  {
    if parts != [] {
      var rest := parts[1..];
      assert parts == [parts[0]] + rest;
      if rest != [] {
        JoinContains(rest, sep, c);
      }
    }
  }

  // ---------- Write sets ----------

  /** A composite key whose store has no comma in its name. */
  predicate PlainKey(key: Bytes) {
    0x2F in key && 0x2C !in key
  }

  predicate PlainKeys(keys: seq<Bytes>) {
    forall i :: 0 <= i < |keys| ==> PlainKey(keys[i])
  }

  lemma CompositeIsPlain(store: Bytes, key: Bytes)
    ensures PlainKey(Observer.Composite(store, key)) <==> COMMA !in store
  {
    var c := Observer.Composite(store, key);
    assert c[|store|] == SLASH;
    assert COMMA !in Hex(key);
    assert COMMA in c <==> COMMA in store;
  }

  /** What stands for the keys after the fifth. */
  function Remainder(n: nat): Bytes {
    ELLIPSIS + Ascii("(") + FormatInt(n) + Ascii(" total)")
  }

  /** The parts that the text of a write set joins. */
  function Parts(keys: seq<Bytes>): seq<Bytes> {
    if |keys| <= 5 then keys else keys[..5] + [Remainder(|keys|)]
  }

  lemma Literals()
    ensures Ascii("(") == [0x28] && Ascii(" total)") == [0x20, 0x74, 0x6F, 0x74, 0x61, 0x6C, 0x29]
    ensures Ascii("(empty)") == [0x28, 0x65, 0x6D, 0x70, 0x74, 0x79, 0x29]
  {
  }

  lemma {:induction false} DigitsPlain(n: nat)
    ensures COMMA !in Digits(n)
  {
  }

  lemma RemainderPlain(n: nat)
    ensures Remainder(n) != [] && COMMA !in Remainder(n)
  {
    Literals();
    DigitsPlain(n);
    assert FormatInt(n) == Digits(n);
  }

  lemma RemainderInjective(m: nat, n: nat)
    requires Remainder(m) == Remainder(n)
    ensures m == n
  {
    var start, end := ELLIPSIS + Ascii("("), Ascii(" total)");
    var r := Remainder(m);
    assert FormatInt(m) == r[|start|..|r| - |end|];
    assert FormatInt(n) == r[|start|..|r| - |end|];
    FormatIntInjective(m, n);
  }

  lemma TextJoinsParts(keys: seq<Bytes>)
    requires keys != []
    ensures FormatWriteSet(keys) == Join(Parts(keys), COMMA)
  {
    if |keys| > 5 {
      JoinLast(keys[..5], Remainder(|keys|), COMMA);
      Regroup(Join(keys[..5], COMMA), [COMMA], ELLIPSIS, Ascii("("), FormatInt(|keys|), Ascii(" total)"));
    }
  }

  lemma Regroup(a: Bytes, b: Bytes, c: Bytes, d: Bytes, e: Bytes, f: Bytes)
    ensures a + b + c + d + e + f == a + b + (c + d + e + f)
  {
  }

  lemma PartsJoinable(keys: seq<Bytes>)
    requires PlainKeys(keys)
    ensures Joinable(Parts(keys), COMMA)
  {
    RemainderPlain(|keys|);
    forall p | p in Parts(keys)
      ensures p != [] && COMMA !in p
    {
      if p in keys {
        var i :| 0 <= i < |keys| && keys[i] == p;
        assert PlainKey(keys[i]);
      }
    }
  }

  lemma NoText(keys: seq<Bytes>)
    requires PlainKeys(keys) && keys != []
    ensures FormatWriteSet(keys) != FormatWriteSet([])
  {
    TextJoinsParts(keys);
    assert PlainKey(keys[0]) && Parts(keys)[0] == keys[0];
    assert keys[0] in Parts(keys);
    JoinContains(Parts(keys), COMMA, SLASH);
    Literals();
  }

  lemma LongWriteSetsLookAlike(a: seq<Bytes>, b: seq<Bytes>)
    requires |a| == |b| > 5 && a[..5] == b[..5]
    ensures FormatWriteSet(a) == FormatWriteSet(b)
  {
  }

  /** The text of a write set shows its first five keys, and the number of keys if there are more: for stores
      without a comma in their names, that and nothing else makes two texts equal. */
  lemma WriteSetTextDecides(a: seq<Bytes>, b: seq<Bytes>)
    requires PlainKeys(a) && PlainKeys(b)
    ensures FormatWriteSet(a) == FormatWriteSet(b) <==> a == b || (|a| == |b| > 5 && a[..5] == b[..5])
  {
    if |a| == |b| > 5 && a[..5] == b[..5] {
      LongWriteSetsLookAlike(a, b);
    }
    if FormatWriteSet(a) == FormatWriteSet(b) && a != b {
      if a == [] {
        NoText(b);
      } else if b == [] {
        NoText(a);
      } else {
        TextJoinsParts(a);
        TextJoinsParts(b);
        PartsJoinable(a);
        PartsJoinable(b);
        JoinInjective(Parts(a), Parts(b), COMMA);
        SameParts(a, b);
      }
    }
  }

  lemma SameParts(a: seq<Bytes>, b: seq<Bytes>)
    requires Parts(a) == Parts(b)
    ensures a == b || (|a| == |b| > 5 && a[..5] == b[..5])
  {
    if |a| > 5 && |b| > 5 {
      assert Parts(a)[5] == Remainder(|a|) && Parts(b)[5] == Remainder(|b|);
      RemainderInjective(|a|, |b|);
      assert a[..5] == Parts(a)[..5] && b[..5] == Parts(b)[..5];
    } else {
      assert |Parts(a)| == |Parts(b)|;
    }
  }

  /** The composite keys of written pairs of store and key. */
  function KeysOf(ws: seq<Write>): (r: seq<Bytes>)
    ensures |r| == |ws|
    ensures forall i :: 0 <= i < |ws| ==> r[i] == Observer.Composite(ws[i].store, ws[i].key)
  {
    seq(|ws|, i requires 0 <= i < |ws| => Observer.Composite(ws[i].store, ws[i].key))
  }

  predicate PlainStores(ws: seq<Write>) {
    forall i :: 0 <= i < |ws| ==> 0x2C !in ws[i].store
  }

  lemma KeysDetermineWrites(ws: seq<Write>, us: seq<Write>, n: nat)
    requires n <= |ws| && n <= |us| && KeysOf(ws)[..n] == KeysOf(us)[..n]
    ensures ws[..n] == us[..n]
  {
    forall i | 0 <= i < n
      ensures ws[i] == us[i]
    {
      assert KeysOf(ws)[..n][i] == KeysOf(us)[..n][i];
      Observer.CompositeInjective(ws[i].store, ws[i].key, us[i].store, us[i].key);
    }
  }

  lemma PlainStoresPlainKeys(ws: seq<Write>)
    requires PlainStores(ws)
    ensures PlainKeys(KeysOf(ws))
  {
    forall i | 0 <= i < |ws|
      ensures PlainKey(KeysOf(ws)[i])
    {
      CompositeIsPlain(ws[i].store, ws[i].key);
    }
  }

  /** So the texts of two lists of written pairs are equal exactly when the lists are equal, or have the same number
      of pairs, more than five, and the same first five. */
  lemma WritesTextDecides(ws: seq<Write>, us: seq<Write>)
    requires PlainStores(ws) && PlainStores(us)
    ensures FormatWriteSet(KeysOf(ws)) == FormatWriteSet(KeysOf(us))
            <==> ws == us || (|ws| == |us| > 5 && ws[..5] == us[..5])
  {
    PlainStoresPlainKeys(ws);
    PlainStoresPlainKeys(us);
    WriteSetTextDecides(KeysOf(ws), KeysOf(us));
    SameWritesSameKeys(ws, us);
  }

  lemma FirstKeys(ws: seq<Write>, n: nat)
    requires n <= |ws|
    ensures KeysOf(ws)[..n] == KeysOf(ws[..n])
  {
  }

  lemma SameWritesSameKeys(ws: seq<Write>, us: seq<Write>)
    ensures KeysOf(ws) == KeysOf(us) <==> ws == us
    ensures |ws| == |us| > 5 ==> (KeysOf(ws)[..5] == KeysOf(us)[..5] <==> ws[..5] == us[..5])
  {
    if KeysOf(ws) == KeysOf(us) {
      KeysDetermineWrites(ws, us, |ws|);
    }
    if |ws| == |us| > 5 {
      if KeysOf(ws)[..5] == KeysOf(us)[..5] {
        KeysDetermineWrites(ws, us, 5);
      }
      FirstKeys(ws, 5);
      FirstKeys(us, 5);
    }
  }

  /** A store with a comma in its name breaks this: any two writes look like one, to a store whose name holds the
      first key, a comma and the second store. */
  lemma CommaStoresLookAlike(u: Write, v: Write)
    ensures
      var w := Write(Observer.Composite(u.store, u.key) + [COMMA] + v.store, v.key);
      FormatWriteSet(KeysOf([w])) == FormatWriteSet(KeysOf([u, v]))
  {
    var w := Write(Observer.Composite(u.store, u.key) + [COMMA] + v.store, v.key);
    var x, y := Observer.Composite(u.store, u.key), Observer.Composite(v.store, v.key);
    var z := x + [COMMA] + y;
    assert Observer.Composite(w.store, w.key) == z;
    assert KeysOf([w]) == [z] && KeysOf([u, v]) == [x, y];
    assert [x, y][1..] == [y] && Join([y], COMMA) == y + [] == y;
    assert Join([z], COMMA) == z + [] == z;
    assert x + ([COMMA] + y) == z;
  }

  // ---------- Events ----------

  /** An attribute whose key and value hold no byte that the text uses to separate: `=`, `,` and `;`. */
  predicate PlainAttribute(a: Attribute) {
    && 0x3D !in a.key && 0x2C !in a.key && 0x3B !in a.key
    && 0x2C !in a.value && 0x3B !in a.value
  }

  /** The same, and no colon or semicolon in the type. */
  predicate PlainEvent(e: Event) {
    && 0x3A !in e.kind && 0x3B !in e.kind
    && forall i :: 0 <= i < |e.attributes| ==> PlainAttribute(e.attributes[i])
  }

  predicate PlainEvents(events: seq<Event>) {
    forall i :: 0 <= i < |events| ==> PlainEvent(events[i])
  }

  lemma EventLiterals()
    ensures Ascii("=") == [EQUALS] && Ascii(":[") == [COLON, 0x5B] && Ascii("]") == [0x5D]
    ensures Ascii("(none)") == [0x28, 0x6E, 0x6F, 0x6E, 0x65, 0x29]
  {
  }

  function AttributeText(a: Attribute): Bytes {
    a.key + Ascii("=") + a.value
  }

  function EventText(e: Event): Bytes {
    e.kind + Ascii(":[") + Join(AttributeTexts(e.attributes), COMMA) + Ascii("]")
  }

  lemma TextsAt(events: seq<Event>, e: Event)
    ensures |EventTexts(events)| == |events|
    ensures forall i :: 0 <= i < |events| ==> EventTexts(events)[i] == EventText(events[i])
    ensures |AttributeTexts(e.attributes)| == |e.attributes|
    ensures forall i :: 0 <= i < |e.attributes| ==> AttributeTexts(e.attributes)[i] == AttributeText(e.attributes[i])
  {
  }

  lemma AttributeTextInjective(a: Attribute, b: Attribute)
    requires PlainAttribute(a) && PlainAttribute(b) && AttributeText(a) == AttributeText(b)
    ensures a == b
  {
    EventLiterals();
    assert a.key + ([EQUALS] + a.value) == AttributeText(a);
    assert b.key + ([EQUALS] + b.value) == AttributeText(b);
    SplitAtSeparator(a.key, [EQUALS] + a.value, b.key, [EQUALS] + b.value, EQUALS);
    assert a.value == ([EQUALS] + a.value)[1..] && b.value == ([EQUALS] + b.value)[1..];
  }

  lemma AttributeTextPlain(a: Attribute)
    requires PlainAttribute(a)
    ensures AttributeText(a) != [] && COMMA !in AttributeText(a) && SEMICOLON !in AttributeText(a)
  {
    EventLiterals();
  }

  lemma AttributesJoinable(e: Event)
    requires PlainEvent(e)
    ensures Joinable(AttributeTexts(e.attributes), COMMA)
    ensures SEMICOLON !in Join(AttributeTexts(e.attributes), COMMA)
  {
    TextsAt([], e);
    var texts := AttributeTexts(e.attributes);
    forall p | p in texts
      ensures p != [] && COMMA !in p && SEMICOLON !in p
    {
      var i :| 0 <= i < |texts| && texts[i] == p;
      AttributeTextPlain(e.attributes[i]);
    }
    JoinContains(texts, COMMA, SEMICOLON);
  }

  lemma AttributesInjective(e: Event, f: Event)
    requires PlainEvent(e) && PlainEvent(f)
    requires Join(AttributeTexts(e.attributes), COMMA) == Join(AttributeTexts(f.attributes), COMMA)
    ensures e.attributes == f.attributes
  {
    AttributesJoinable(e);
    AttributesJoinable(f);
    JoinInjective(AttributeTexts(e.attributes), AttributeTexts(f.attributes), COMMA);
    TextsAt([], e);
    TextsAt([], f);
    forall i | 0 <= i < |e.attributes|
      ensures e.attributes[i] == f.attributes[i]
    {
      AttributeTextInjective(e.attributes[i], f.attributes[i]);
    }
  }

  lemma EventTextInjective(e: Event, f: Event)
    requires PlainEvent(e) && PlainEvent(f) && EventText(e) == EventText(f)
    ensures e == f
  {
    EventLiterals();
    var s, t := Join(AttributeTexts(e.attributes), COMMA), Join(AttributeTexts(f.attributes), COMMA);
    assert e.kind + ([COLON, 0x5B] + s + [0x5D]) == EventText(e);
    assert f.kind + ([COLON, 0x5B] + t + [0x5D]) == EventText(f);
    SplitAtSeparator(e.kind, [COLON, 0x5B] + s + [0x5D], f.kind, [COLON, 0x5B] + t + [0x5D], COLON);
    Unwrap(s, t);
    AttributesInjective(e, f);
  }

  lemma Unwrap(s: Bytes, t: Bytes)
    requires [COLON, 0x5B] + s + [0x5D] == [COLON, 0x5B] + t + [0x5D]
    ensures s == t
  {
    var x, y := [COLON, 0x5B] + s + [0x5D], [COLON, 0x5B] + t + [0x5D];
    assert s == x[2..|x| - 1] && t == y[2..|y| - 1];
  }

  lemma EventTextPlain(e: Event)
    requires PlainEvent(e)
    ensures COLON in EventText(e) && SEMICOLON !in EventText(e)
  {
    EventLiterals();
    AttributesJoinable(e);
    assert EventText(e)[|e.kind|] == COLON;
  }

  lemma EventsJoinable(events: seq<Event>)
    requires PlainEvents(events)
    ensures Joinable(EventTexts(events), SEMICOLON)
    ensures events != [] ==> COLON in Join(EventTexts(events), SEMICOLON)
  {
    var texts := EventTexts(events);
    forall p | p in texts
      ensures p != [] && SEMICOLON !in p && COLON in p
    {
      var i :| 0 <= i < |texts| && texts[i] == p;
      TextsAt(events, events[i]);
      EventTextPlain(events[i]);
    }
    if events != [] {
      assert texts[0] in texts;
      JoinContains(texts, SEMICOLON, COLON);
    }
  }

  /** Events free of the separators have the same text only if they are the same. */
  lemma EventsTextDecides(e: seq<Event>, f: seq<Event>)
    requires PlainEvents(e) && PlainEvents(f)
    ensures FormatEvents(e) == FormatEvents(f) <==> e == f
  {
    EventLiterals();
    EventsJoinable(e);
    EventsJoinable(f);
    if FormatEvents(e) == FormatEvents(f) && e != [] && f != [] {
      JoinInjective(EventTexts(e), EventTexts(f), SEMICOLON);
      forall i | 0 <= i < |e|
        ensures |e| == |f| && e[i] == f[i]
      {
        TextsAt(e, e[i]);
        TextsAt(f, e[i]);
        EventTextInjective(e[i], f[i]);
      }
      TextsAt(e, e[0]);
      TextsAt(f, e[0]);
    }
  }

  /** An equals sign in an attribute's key makes the events look like others, in which it belongs to the value. */
  lemma EventsLookAlike(events: seq<Event>, i: nat, j: nat, x: Bytes, y: Bytes) returns (others: seq<Event>)
    requires i < |events| && j < |events[i].attributes| && events[i].attributes[j].key == x + Ascii("=") + y
    ensures others != events && FormatEvents(others) == FormatEvents(events)
  {
    var e := events[i];
    var a := e.attributes[j];
    var b := Attribute(x, y + Ascii("=") + a.value);
    EventLiterals();
    assert |a.key| > |x|;
    assert x + [EQUALS] + (y + [EQUALS] + a.value) == x + [EQUALS] + y + [EQUALS] + a.value;
    var f := e.(attributes := e.attributes[j := b]);
    TextsAt(events, e);
    TextsAt(events, f);
    assert AttributeTexts(f.attributes) == AttributeTexts(e.attributes);
    others := events[i := f];
    TextsAt(others, f);
    assert EventTexts(others) == EventTexts(events);
    assert others[i].attributes[j] != events[i].attributes[j];
  }

  /** The events that both sides report for the common transactions are free of the separators. */
  predicate PlainResponses(l: Response, r: Response) {
    forall i :: 0 <= i < |l.txResults| && i < |r.txResults| ==>
      PlainEvents(l.txResults[i].events) && PlainEvents(r.txResults[i].events)
  }

  /** Then there is a finding about the events of a transaction exactly when they differ. */
  lemma EventFindingsExact(p: Pair, i: nat)
    requires PlainResponses(p.left, p.right) && i < Common(p)
    ensures Differs(p, DimEvents, i) <==> p.left.txResults[i].events != p.right.txResults[i].events
  {
    EventsTextDecides(p.left.txResults[i].events, p.right.txResults[i].events);
  }

  /** So Match means that the oracle and the probe report the same events for each transaction that both have a
      result for. */
  lemma MatchMeansSameEvents(input: Input)
    requires input.oracle.Some? && input.probe.Some?
    requires PlainResponses(input.oracle.value, input.probe.value)
    requires VerdictOf(AllFindings(input)) == Match
    ensures
      var o, p := input.oracle.value.txResults, input.probe.value.txResults;
      forall i :: 0 <= i < |o| && i < |p| ==> o[i].events == p[i].events
  {
    MatchExactly(input);
    var o, p := input.oracle.value, input.probe.value;
    forall i | 0 <= i < |o.txResults| && i < |p.txResults|
      ensures o.txResults[i].events == p.txResults[i].events
    {
      assert SameTx(o, p, input.oracleWriteSets, input.probeWriteSets, i);
      EventsTextDecides(o.txResults[i].events, p.txResults[i].events);
    }
  }
}
