/**
 * The placeholder applier: it plans an insertion of the sentinel
 * "__DELETE_ME__" at every empty value slot (an empty `key=` in the query
 * string or in a form-like body, an empty JSON string), keeps one insertion
 * per offset (the first planned one), then splices the sentinels into the
 * request text in one left-to-right pass and records where each one landed.
 */
module PlaceholderApplier {
  import opened Wrappers
  import opened Text
  import opened SeqLemmas
  import opened Ranges
  import opened Http
  import opened JsonParser
  import opened JsonTokenUtils
  import opened ContentTypeUtils

  const EMPTY_VALUE_PLACEHOLDER: string := "__DELETE_ME__"

  /** core/PlaceholderResult.java. */
  datatype PlaceholderResult = PlaceholderResult(
    modifiedRequestString: string,
    placeholderRanges: seq<Range>,
    insertions: seq<InsertionOp>,
    hasChanges: bool)

  // ---------------------------------------------------------------------------
  // The plan: a TreeMap<Integer, String> filled by putIfAbsent
  // ---------------------------------------------------------------------------

  predicate StrictlyAscending(ops: seq<InsertionOp>)
  {
    forall i, j :: 0 <= i < j < |ops| ==> ops[i].index < ops[j].index
  }

  /** The map the entries stand for: offset to inserted text. */
  function AsMap(ops: seq<InsertionOp>): map<int, string>
  {
    if ops == [] then map[] else AsMap(ops[1..])[ops[0].index := ops[0].text]
  }

  /** putIfAbsent on the ascending entry list. */
  function Put(ops: seq<InsertionOp>, key: int, text: string): seq<InsertionOp>
  {
    if ops == [] || key < ops[0].index then [InsertionOp(key, text)] + ops
    else if key == ops[0].index then ops
    else [ops[0]] + Put(ops[1..], key, text)
  }

  /** Every entry's offset is a key of the map. */
  lemma {:induction false} AsMapHas(ops: seq<InsertionOp>)
    ensures forall op :: op in ops ==> op.index in AsMap(ops)
  {
    if ops != [] {
      AsMapHas(ops[1..]);
      forall op | op in ops ensures op.index in AsMap(ops) {
        if op != ops[0] {
          var k :| 0 <= k < |ops| && ops[k] == op;
          assert op == ops[1..][k - 1];
        }
      }
    }
  }

  /** A key below the first entry of an ascending list is not in its map. */
  lemma {:induction false} AsMapBelow(ops: seq<InsertionOp>, key: int)
    requires StrictlyAscending(ops)
    requires ops == [] || key < ops[0].index
    ensures key !in AsMap(ops)
  {
    if ops != [] {
      if |ops| > 1 {
        assert ops[0].index < ops[1].index;
      }
      AsMapBelow(ops[1..], key);
    }
  }

  /** Put adds at most the one new entry. */
  lemma {:induction false} PutMembers(ops: seq<InsertionOp>, key: int, text: string)
    ensures forall op :: op in Put(ops, key, text) ==> op in ops || op == InsertionOp(key, text)
  {
    if ops != [] && key > ops[0].index {
      PutMembers(ops[1..], key, text);
      forall op | op in Put(ops, key, text) ensures op in ops || op == InsertionOp(key, text) {
        if op != ops[0] {
          assert op in Put(ops[1..], key, text);
        }
      }
    }
  }

  /** putIfAbsent keeps the entries strictly ascending. */
  lemma {:induction false} PutAscending(ops: seq<InsertionOp>, key: int, text: string)
    requires StrictlyAscending(ops)
    ensures StrictlyAscending(Put(ops, key, text))
  {
    if ops != [] && key > ops[0].index {
      var rest := ops[1..];
      var r := Put(ops, key, text);
      PutAscending(rest, key, text);
      PutMembers(rest, key, text);
      assert r[1..] == Put(rest, key, text);
      forall j | 0 < j < |r| ensures r[0].index < r[j].index {
        assert r[j] in Put(rest, key, text);
        if r[j] != InsertionOp(key, text) {
          var k :| 0 <= k < |rest| && rest[k] == r[j];
          assert rest[k] == ops[k + 1];
        }
      }
    }
  }

  /**
   * putIfAbsent changes the map only when the key is new, and then adds
   * exactly that key with the given text: the first write wins.
   */
  lemma {:induction false} PutSpec(ops: seq<InsertionOp>, key: int, text: string)
    requires StrictlyAscending(ops)
    ensures StrictlyAscending(Put(ops, key, text))
    ensures AsMap(Put(ops, key, text)) == if key in AsMap(ops) then AsMap(ops) else AsMap(ops)[key := text]
  {
    PutAscending(ops, key, text);
    var r := Put(ops, key, text);
    if ops == [] || key < ops[0].index {
      AsMapBelow(ops, key);
      assert r[1..] == ops;
    } else if key > ops[0].index {
      var rest := ops[1..];
      PutSpec(rest, key, text);
      assert r[1..] == Put(rest, key, text);
    }
  }

  /** The offsets of a scan, as a set. */
  function Elems(ps: seq<int>): set<int>
  {
    set p | p in ps
  }

  /** The plan after putIfAbsent of every key in turn, all with the same text. */
  function PutAll(ops: seq<InsertionOp>, keys: seq<int>, text: string): seq<InsertionOp>
  {
    if keys == [] then ops else Put(PutAll(ops, keys[..|keys| - 1], text), keys[|keys| - 1], text)
  }

  predicate AllText(ops: seq<InsertionOp>, text: string)
  {
    forall op :: op in ops ==> op.text == text
  }

  /**
   * putIfAbsent of a sequence of keys keeps the entries ascending with the
   * one text, and the keys become the old keys plus the new ones.
   */
  lemma {:induction false} PutAllSpec(ops: seq<InsertionOp>, keys: seq<int>, text: string)
    requires StrictlyAscending(ops) && AllText(ops, text)
    ensures StrictlyAscending(PutAll(ops, keys, text)) && AllText(PutAll(ops, keys, text), text)
    ensures AsMap(PutAll(ops, keys, text)).Keys == AsMap(ops).Keys + Elems(keys)
    decreases |keys|
  {
    if keys != [] {
      var init := keys[..|keys| - 1];
      var last := keys[|keys| - 1];
      var before := PutAll(ops, init, text);
      PutAllSpec(ops, init, text);
      PutMembers(before, last, text);
      PutSpec(before, last, text);
      assert Elems(keys) == Elems(init) + {last} by {
        assert keys == init + [last];
      }
    }
  }

  /** Planning one more offset adds it to the keys planned so far. */
  lemma KeysGrow(keys0: set<int>, before: set<int>, after: set<int>, done: seq<int>, p: int)
    requires before == keys0 + Elems(done) && after == before + {p}
    ensures after == keys0 + Elems(done + [p])
  {
    assert Elems(done + [p]) == Elems(done) + {p};
  }

  /** The first entry of an ascending list holds the smallest key. */
  lemma {:induction false} AsMapMin(ops: seq<InsertionOp>)
    requires StrictlyAscending(ops) && ops != []
    ensures forall k :: k in AsMap(ops) ==> ops[0].index <= k
  {
    if |ops| > 1 {
      assert ops[0].index < ops[1].index;
      AsMapMin(ops[1..]);
    }
  }

  /**
   * The head of a non-empty ascending list holds the least key; the tail
   * is ascending and holds the other keys.
   */
  lemma HeadAndTail(ops: seq<InsertionOp>, text: string)
    requires StrictlyAscending(ops) && AllText(ops, text) && ops != []
    ensures ops[0].index in AsMap(ops) && ops[0].text == text
    ensures forall k :: k in AsMap(ops) ==> ops[0].index <= k
    ensures StrictlyAscending(ops[1..]) && AllText(ops[1..], text)
    ensures AsMap(ops[1..]).Keys == AsMap(ops).Keys - {ops[0].index}
  {
    assert ops[0] in ops;
    AsMapMin(ops);
    if |ops| > 1 {
      assert ops[0].index < ops[1].index;
    }
    AsMapBelow(ops[1..], ops[0].index);
    forall op | op in ops[1..] ensures op.text == text {
      assert op in ops;
    }
  }

  /** One text for all, a strictly ascending entry list is fixed by its keys. */
  lemma {:induction false} AscendingUnique(a: seq<InsertionOp>, b: seq<InsertionOp>, text: string)
    requires StrictlyAscending(a) && StrictlyAscending(b)
    requires AllText(a, text) && AllText(b, text)
    requires AsMap(a).Keys == AsMap(b).Keys
    ensures a == b
    decreases |a|
  {
    if a != [] {
      HeadAndTail(a, text);
    }
    if b != [] {
      HeadAndTail(b, text);
    }
    if a != [] && b != [] {
      assert a[0] == b[0];
      AscendingUnique(a[1..], b[1..], text);
      assert a == [a[0]] + a[1..] && b == [b[0]] + b[1..];
    }
  }

  /** The TreeMap the applier fills: its entries in ascending key order. */
  class InsertionPlan {
    var entries: seq<InsertionOp>

    predicate Valid()
      reads this
    {
      StrictlyAscending(entries)
    }

    constructor ()
      ensures Valid() && entries == []
    {
      entries := [];
    }

    /**
     * putIfAbsent(key, text): the map gains the key with this text only when
     * the key is new, and no other entry appears.
     */
    method PutIfAbsent(key: int, text: string)
      requires Valid()
      modifies this
      ensures Valid()
      ensures AsMap(entries) == if key in AsMap(old(entries)) then AsMap(old(entries)) else AsMap(old(entries))[key := text]
      ensures forall op :: op in entries ==> op in old(entries) || op == InsertionOp(key, text)
      ensures AsMap(entries).Keys == AsMap(old(entries)).Keys + {key}
      ensures AllText(old(entries), text) ==> AllText(entries, text)
    {
      PutSpec(entries, key, text);
      PutMembers(entries, key, text);
      entries := Put(entries, key, text);
    }

    /** isEmpty(). */
    function IsEmpty(): bool
      reads this
    {
      entries == []
    }
  }

  // ---------------------------------------------------------------------------
  // collectEmptyKeyValueInsertions
  // ---------------------------------------------------------------------------

  /** A character right after '=' that makes the value empty. */
  predicate EndsEmptyValue(c: char)
  {
    c == '&' || c == ';' || c == '\n' || c == '\r' || c == ' '
  }

  /** A character that ends a non-empty value; a space is not one. */
  predicate EndsValue(c: char)
  {
    c == '&' || c == ';' || c == '\n' || c == '\r'
  }

  /** The first index at or after `from` holding &, ;, LF or CR, else |text|. */
  function SkipValue(text: string, from: nat): (sep: nat)
    requires from <= |text|
    ensures from <= sep <= |text|
    ensures sep < |text| ==> EndsValue(text[sep])
    ensures forall j :: from <= j < sep ==> !EndsValue(text[j])
    decreases |text| - from
  {
    if from == |text| || EndsValue(text[from]) then from else SkipValue(text, from + 1)
  }

  /**
   * The offsets (plus `base`) that the key=value scan plans, in scan order,
   * for the scan resumed at index i.
   */
  function KeyValuePoints(text: string, base: int, i: nat): seq<int>
    decreases |text| - i
  {
    if i >= |text| then []
    else
      var eq := IndexOfCharFrom(text, '=', i);
      if eq < 0 then []
      else if eq + 1 >= |text| then [base + eq + 1]
      else if EndsEmptyValue(text[eq + 1]) then [base + eq + 1] + KeyValuePoints(text, base, eq + 2)
      else KeyValuePoints(text, base, SkipValue(text, eq + 1) + 1)
  }

  /**
   * Each offset (minus base) lies in (lo, |text|], right after an '=' that
   * ends the text or is followed by &, ;, CR, LF or space.
   */
  predicate AfterEmptyValueEq(text: string, base: int, lo: int, ps: seq<int>)
  {
    forall k :: 0 <= k < |ps| ==>
      && 1 <= ps[k] - base && lo + 1 <= ps[k] - base <= |text|
      && text[ps[k] - base - 1] == '='
      && (ps[k] - base == |text| || EndsEmptyValue(text[ps[k] - base]))
  }

  predicate Increasing(ps: seq<int>)
  {
    forall k, l :: 0 <= k < l < |ps| ==> ps[k] < ps[l]
  }

  lemma AfterEmptyValueEqFrom(text: string, base: int, lo: int, lo2: int, ps: seq<int>)
    requires lo <= lo2 && AfterEmptyValueEq(text, base, lo2, ps)
    ensures AfterEmptyValueEq(text, base, lo, ps)
  {
  }

  /** An offset placed before an ascending tail of later offsets. */
  lemma ConsAfter(text: string, base: int, lo: int, p: int, rest: seq<int>, ps: seq<int>)
    requires 1 <= p - base && lo + 1 <= p - base <= |text| && text[p - base - 1] == '='
    requires p - base == |text| || EndsEmptyValue(text[p - base])
    requires AfterEmptyValueEq(text, base, p - base, rest) && Increasing(rest)
    requires ps == [p] + rest
    ensures AfterEmptyValueEq(text, base, lo, ps) && Increasing(ps)
  {
    assert forall k :: 1 <= k < |ps| ==> ps[k] == rest[k - 1];
  }

  /**
   * Every planned offset comes right after an '=' at or after i that ends
   * the text or is followed by &, ;, CR, LF or space; the offsets ascend.
   */
  lemma {:induction false} KeyValuePointsSound(text: string, base: int, i: nat)
    ensures AfterEmptyValueEq(text, base, i, KeyValuePoints(text, base, i))
    ensures Increasing(KeyValuePoints(text, base, i))
    decreases |text| - i
  {
    if i < |text| {
      var eq := IndexOfCharFrom(text, '=', i);
      if 0 <= eq && eq + 1 < |text| {
        var next := if EndsEmptyValue(text[eq + 1]) then eq + 2 else SkipValue(text, eq + 1) + 1;
        KeyValuePointsSound(text, base, next);
        SoundStep(text, base, i, eq, next);
      } else {
        SoundStep(text, base, i, eq, |text|);
      }
    }
  }

  /** One round of KeyValuePointsSound, given the facts for the resumed scan. */
  lemma SoundStep(text: string, base: int, i: nat, eq: int, next: nat)
    requires i < |text| && eq == IndexOfCharFrom(text, '=', i)
    requires 0 <= eq && eq + 1 < |text| ==>
      next == (if EndsEmptyValue(text[eq + 1]) then eq + 2 else SkipValue(text, eq + 1) + 1)
    requires AfterEmptyValueEq(text, base, next, KeyValuePoints(text, base, next))
    requires Increasing(KeyValuePoints(text, base, next))
    ensures AfterEmptyValueEq(text, base, i, KeyValuePoints(text, base, i))
    ensures Increasing(KeyValuePoints(text, base, i))
  {
    KeyValueStep(text, base, i, eq);
    if eq >= 0 && eq + 1 >= |text| {
      ConsAfter(text, base, i, base + eq + 1, [], KeyValuePoints(text, base, i));
    } else if eq >= 0 {
      if EndsEmptyValue(text[eq + 1]) {
        AfterEmptyValueEqFrom(text, base, eq + 1, next, KeyValuePoints(text, base, next));
        ConsAfter(text, base, i, base + eq + 1, KeyValuePoints(text, base, next), KeyValuePoints(text, base, i));
      } else {
        AfterEmptyValueEqFrom(text, base, i, next, KeyValuePoints(text, base, next));
      }
    }
  }

  /**
   * When every '=' from i on opens an empty value, the scan plans an
   * insertion after each of them.
   */
  lemma {:induction false} KeyValuePointsComplete(text: string, base: int, i: nat)
    requires EveryEqOpensEmpty(text, i)
    ensures forall j :: i <= j < |text| && text[j] == '=' ==> base + j + 1 in KeyValuePoints(text, base, i)
    decreases |text| - i
  {
    if i < |text| {
      var eq := IndexOfCharFrom(text, '=', i);
      if 0 <= eq && eq + 1 < |text| {
        KeyValuePointsComplete(text, base, eq + 2);
      }
      CompleteStep(text, base, i, eq);
    }
  }

  /** Every '=' from i on ends the text or is followed by &, ;, CR, LF or space. */
  predicate EveryEqOpensEmpty(text: string, i: nat)
  {
    forall j :: i <= j < |text| && text[j] == '=' ==> j + 1 == |text| || EndsEmptyValue(text[j + 1])
  }

  /** One round of KeyValuePointsComplete, given the facts for the resumed scan. */
  lemma CompleteStep(text: string, base: int, i: nat, eq: int)
    requires i < |text| && eq == IndexOfCharFrom(text, '=', i)
    requires EveryEqOpensEmpty(text, i)
    requires 0 <= eq && eq + 1 < |text| ==>
      forall j :: eq + 2 <= j < |text| && text[j] == '=' ==> base + j + 1 in KeyValuePoints(text, base, eq + 2)
    ensures forall j :: i <= j < |text| && text[j] == '=' ==> base + j + 1 in KeyValuePoints(text, base, i)
  {
    KeyValueStep(text, base, i, eq);
    IndexOfCharFromFirst(text, '=', i);
  }

  /**
   * A space ends an empty value but not a non-empty one: in "a=x y=&c=" the
   * empty value of y is swallowed by the value of a.
   */
  lemma SpaceInsideValue()
    ensures KeyValuePoints("a= b=&c=", 0, 0) == [2, 5, 8]
    ensures KeyValuePoints("a=x y=&c=", 0, 0) == [9]
  {
    assert IndexOfCharFrom("a= b=&c=", '=', 0) == 1;
    assert IndexOfCharFrom("a= b=&c=", '=', 3) == 4;
    assert IndexOfCharFrom("a= b=&c=", '=', 6) == 7;
    assert IndexOfCharFrom("a=x y=&c=", '=', 0) == 1;
    assert SkipValue("a=x y=&c=", 2) == 6;
    assert IndexOfCharFrom("a=x y=&c=", '=', 7) == 8;
  }

  /** One round of the scan at i, by the character after the next '='. */
  lemma KeyValueStep(text: string, base: int, i: nat, eq: int)
    requires i < |text| && eq == IndexOfCharFrom(text, '=', i)
    ensures eq < 0 ==> KeyValuePoints(text, base, i) == []
    ensures 0 <= eq && eq + 1 >= |text| ==> KeyValuePoints(text, base, i) == [base + eq + 1]
    ensures 0 <= eq && eq + 1 < |text| && EndsEmptyValue(text[eq + 1]) ==>
      KeyValuePoints(text, base, i) == [base + eq + 1] + KeyValuePoints(text, base, eq + 2)
    ensures 0 <= eq && eq + 1 < |text| && !EndsEmptyValue(text[eq + 1]) ==>
      KeyValuePoints(text, base, i) == KeyValuePoints(text, base, SkipValue(text, eq + 1) + 1)
  {
  }

  lemma Regroup(done: seq<int>, added: seq<int>, rest: seq<int>, all: seq<int>)
    requires done + (added + rest) == all
    ensures (done + added) + rest == all
    ensures rest == [] ==> done + added == all
  {
    assert (done + added) + rest == done + (added + rest);
    if rest == [] {
      assert (done + added) + rest == done + added;
    }
  }

  /** The inner loop of collectEmptyKeyValueInsertions: skip a non-empty value up to its separator. */
  method SkipToSeparator(text: string, afterEq: nat) returns (sep: nat)
    requires afterEq <= |text|
    ensures sep == SkipValue(text, afterEq)
  {
    sep := afterEq;
    while sep < |text|
      invariant afterEq <= sep <= |text|
      invariant SkipValue(text, sep) == SkipValue(text, afterEq)
      decreases |text| - sep
    {
      var c := text[sep];
      if c == '&' || c == ';' || c == '\n' || c == '\r' {
        break;
      }
      sep := sep + 1;
    }
  }

  /**
   * One round of collectEmptyKeyValueInsertions' loop from `i`: the offsets it
   * plans, and where the scan resumes (None when it stops).
   */
  ghost function Round(text: string, base: int, i: nat): (seq<int>, Option<nat>)
    requires i < |text|
  {
    var eq := IndexOfCharFrom(text, '=', i);
    if eq < 0 then ([], None)
    else if eq + 1 >= |text| then ([base + eq + 1], None)
    else if EndsEmptyValue(text[eq + 1]) then ([base + eq + 1], Some(eq + 2))
    else ([], Some(SkipValue(text, eq + 1) + 1))
  }

  /** The points from `i` are the round's offsets followed by the points from where it resumes. */
  lemma RoundSpec(text: string, base: int, i: nat)
    requires i < |text|
    ensures var (added, next) := Round(text, base, i);
      && (next.None? ==> KeyValuePoints(text, base, i) == added)
      && (next.Some? ==> i < next.value && KeyValuePoints(text, base, i) == added + KeyValuePoints(text, base, next.value))
  {
    var eq := IndexOfCharFrom(text, '=', i);
    if eq < 0 {
      assert Round(text, base, i) == ([], None);
      assert KeyValuePoints(text, base, i) == [] by { KeyValueStep(text, base, i, eq); }
    } else if eq + 1 >= |text| {
      assert Round(text, base, i) == ([base + eq + 1], None);
      assert KeyValuePoints(text, base, i) == [base + eq + 1] by { KeyValueStep(text, base, i, eq); }
    } else if EndsEmptyValue(text[eq + 1]) {
      assert Round(text, base, i) == ([base + eq + 1], Some(eq + 2));
      assert KeyValuePoints(text, base, i) == [base + eq + 1] + KeyValuePoints(text, base, eq + 2) by {
        KeyValueStep(text, base, i, eq);
      }
    } else {
      var sep := SkipValue(text, eq + 1);
      assert Round(text, base, i) == ([], Some(sep + 1));
      assert KeyValuePoints(text, base, i) == [] + KeyValuePoints(text, base, sep + 1) by {
        KeyValueStep(text, base, i, eq);
      }
    }
  }

  /** One round of the loop, planning what Round says. */
  method KeyValueRound(text: string, baseOffset: int, i: nat, plan: InsertionPlan)
    returns (stop: bool, next: nat, ghost added: seq<int>)
    requires i < |text|
    requires plan.Valid() && AllText(plan.entries, EMPTY_VALUE_PLACEHOLDER)
    modifies plan
    ensures plan.Valid() && AllText(plan.entries, EMPTY_VALUE_PLACEHOLDER)
    ensures AsMap(plan.entries).Keys == AsMap(old(plan.entries)).Keys + Elems(added)
    ensures added == Round(text, baseOffset, i).0
    ensures stop <==> Round(text, baseOffset, i).1.None?
    ensures !stop ==> next == Round(text, baseOffset, i).1.value
  {
    var eq := IndexOfCharFrom(text, '=', i);
    if eq < 0 {
      return true, i, [];
    }

    var afterEq := eq + 1;
    if afterEq >= |text| {
      plan.PutIfAbsent(baseOffset + afterEq, EMPTY_VALUE_PLACEHOLDER);
      assert Elems([baseOffset + afterEq]) == {baseOffset + afterEq};
      return true, i, [baseOffset + afterEq];
    }

    var c := text[afterEq];
    if c == '&' || c == ';' || c == '\n' || c == '\r' || c == ' ' {
      plan.PutIfAbsent(baseOffset + afterEq, EMPTY_VALUE_PLACEHOLDER);
      assert Elems([baseOffset + afterEq]) == {baseOffset + afterEq};
      return false, afterEq + 1, [baseOffset + afterEq];
    }

    var sep := SkipToSeparator(text, afterEq);
    return false, sep + 1, [];
  }

  /** collectEmptyKeyValueInsertions(text, baseOffset, insertions). */
  method CollectEmptyKeyValueInsertions(text: string, baseOffset: int, plan: InsertionPlan)
    requires plan.Valid() && AllText(plan.entries, EMPTY_VALUE_PLACEHOLDER)
    modifies plan
    ensures plan.Valid() && AllText(plan.entries, EMPTY_VALUE_PLACEHOLDER)
    ensures AsMap(plan.entries).Keys == AsMap(old(plan.entries)).Keys + Elems(KeyValuePoints(text, baseOffset, 0))
  {
    ghost var all := KeyValuePoints(text, baseOffset, 0);
    ghost var keys0 := AsMap(plan.entries).Keys;
    ghost var done: seq<int> := [];
    var i := 0;
    while i < |text|
      invariant plan.Valid() && AllText(plan.entries, EMPTY_VALUE_PLACEHOLDER)
      invariant done + KeyValuePoints(text, baseOffset, i) == all
      invariant AsMap(plan.entries).Keys == keys0 + Elems(done)
      decreases |text| - i
    {
      var stop, next, added := KeyValueRound(text, baseOffset, i, plan);
      RoundSpec(text, baseOffset, i);
      assert Elems(done + added) == Elems(done) + Elems(added);
      if stop {
        Regroup(done, added, [], all);
        done := done + added;
        break;
      }
      Regroup(done, added, KeyValuePoints(text, baseOffset, next), all);
      done := done + added;
      i := next;
    }
    if i >= |text| {
      Regroup(done, [], [], all);
      assert done + [] == done;
    }
  }

  // ---------------------------------------------------------------------------
  // collectEmptyQueryInsertions
  // ---------------------------------------------------------------------------

  function QueryPoints(requestString: string): seq<int>
  {
    match QueryOf(requestString)
    case None => []
    case Some((query, base)) => KeyValuePoints(query, base, 0)
  }

  /**
   * The query the scan reads and its offset in the request: the request
   * target runs from after the first space to the last space of the first
   * line, and the query is the non-empty part after its first '?'.
   */
  function QueryOf(requestString: string): Option<(string, int)>
  {
    var firstLineEnd := IndexOf(requestString, CRLF);
    if firstLineEnd <= 0 then None else QueryInLine(requestString[..firstLineEnd])
  }

  /** The query of a request line and its offset in that line. */
  function QueryInLine(requestLine: string): Option<(string, int)>
  {
    var firstSpace := IndexOfCharFrom(requestLine, ' ', 0);
    var secondSpace := LastIndexOfChar(requestLine, ' ');
    if firstSpace < 0 || secondSpace <= firstSpace then None
    else
      var target := requestLine[firstSpace + 1..secondSpace];
      var qIdx := IndexOfCharFrom(target, '?', 0);
      if qIdx < 0 || qIdx + 1 >= |target| then None
      else Some((target[qIdx + 1..], firstSpace + 1 + qIdx + 1))
  }

  /**
   * A query is the non-empty text of the line between a '?' that follows
   * the first space and a later space.
   */
  lemma QueryInLineSpec(line: string) returns (end: int)
    ensures QueryInLine(line).Some? ==>
      var (query, base) := QueryInLine(line).value;
        && 2 <= base <= end < |line|
        && query == line[base..end] && query != []
        && line[end] == ' ' && line[base - 1] == '?'
        && IndexOfCharFrom(line, ' ', 0) < base - 1
  {
    end := 0;
    var firstSpace := IndexOfCharFrom(line, ' ', 0);
    var secondSpace := LastIndexOfChar(line, ' ');
    if firstSpace >= 0 && secondSpace > firstSpace {
      var target := line[firstSpace + 1..secondSpace];
      var qIdx := IndexOfCharFrom(target, '?', 0);
      if qIdx >= 0 && qIdx + 1 < |target| {
        var base := firstSpace + 1 + qIdx + 1;
        end := secondSpace;
        SliceOfSlice(line, firstSpace + 1, secondSpace, qIdx + 1, |target|);
        assert line[base - 1] == target[qIdx];
        assert 2 <= base <= secondSpace < |line| && line[secondSpace] == ' ';
      }
    }
  }

  /**
   * Without a CRLF after a non-empty first line there is no query; a query
   * is the text of the first line between a '?' that follows the first
   * space and a later space.
   */
  lemma QueryOfSpec(requestString: string) returns (end: int)
    ensures IndexOf(requestString, CRLF) <= 0 ==> QueryOf(requestString).None?
    ensures QueryOf(requestString).Some? ==>
      var (query, base) := QueryOf(requestString).value;
        && 2 <= base <= end < IndexOf(requestString, CRLF) <= |requestString|
        && query == requestString[base..end] && query != []
        && requestString[end] == ' ' && requestString[base - 1] == '?'
        && IndexOfCharFrom(requestString, ' ', 0) < base - 1
  {
    end := 0;
    var firstLineEnd := IndexOf(requestString, CRLF);
    if firstLineEnd > 0 {
      var line := requestString[..firstLineEnd];
      end := QueryInLineSpec(line);
      if QueryInLine(line).Some? {
        var (query, base) := QueryInLine(line).value;
        SliceOfSlice(requestString, 0, firstLineEnd, base, end);
        assert requestString[end] == line[end] && requestString[base - 1] == line[base - 1];
        FirstCharInPrefix(requestString, firstLineEnd, ' ');
      }
    }
  }

  /**
   * Nothing is planned without a CRLF after a non-empty first line; every
   * planned offset lies in the first line after a '?' that follows its first
   * space, right after an '=' that is followed by &, ;, CR, LF or space; the
   * offsets ascend.
   */
  lemma QueryPointsSpec(requestString: string)
    ensures var ps := QueryPoints(requestString);
      var firstLineEnd := IndexOf(requestString, CRLF);
      && (firstLineEnd <= 0 ==> ps == [])
      && (forall k :: 0 <= k < |ps| ==> EmptyQueryValueAt(requestString, firstLineEnd, ps[k]))
      && Increasing(ps)
  {
    var end := QueryOfSpec(requestString);
    if QueryOf(requestString).Some? {
      var (query, base) := QueryOf(requestString).value;
      var ps := QueryPoints(requestString);
      assert ps == KeyValuePoints(query, base, 0);
      KeyValuePointsSound(query, base, 0);
      QueryPointsInLine(requestString, ps, query, base, end, IndexOf(requestString, CRLF));
    }
  }

  /**
   * Offset p of the request lies in its first line, right after an '=' that
   * follows a '?' after the first space, and before &, ;, CR, LF or space.
   */
  predicate EmptyQueryValueAt(rs: string, firstLineEnd: int, p: int)
  {
    && 2 <= p < firstLineEnd <= |rs|
    && rs[p - 1] == '='
    && EndsEmptyValue(rs[p])
    && exists q :: IndexOfCharFrom(rs, ' ', 0) < q < p - 1 && rs[q] == '?'
  }

  /**
   * Offsets found in the query, which lies between a '?' and a space of the
   * first line, carry over to the whole request.
   */
  lemma QueryPointsInLine(rs: string, ps: seq<int>, query: string, base: int, end: int, firstLineEnd: int)
    requires 2 <= base <= end < firstLineEnd <= |rs| && query == rs[base..end]
    requires rs[end] == ' ' && rs[base - 1] == '?' && IndexOfCharFrom(rs, ' ', 0) < base - 1
    requires AfterEmptyValueEq(query, base, 0, ps)
    ensures forall k :: 0 <= k < |ps| ==> EmptyQueryValueAt(rs, firstLineEnd, ps[k])
  {
    forall k | 0 <= k < |ps| ensures EmptyQueryValueAt(rs, firstLineEnd, ps[k]) {
      var p := ps[k] - base;
      assert rs[ps[k] - 1] == query[p - 1];
      if p < |query| {
        assert rs[ps[k]] == query[p];
      }
      assert IndexOfCharFrom(rs, ' ', 0) < base - 1 < ps[k] - 1 && rs[base - 1] == '?';
    }
  }

  /** Searching a prefix that holds the character finds the same index as searching the whole text. */
  lemma FirstCharInPrefix(s: string, n: nat, c: char)
    requires n <= |s|
    ensures IndexOfCharFrom(s[..n], c, 0) >= 0 ==> IndexOfCharFrom(s, c, 0) == IndexOfCharFrom(s[..n], c, 0)
  {
    var k := IndexOfCharFrom(s[..n], c, 0);
    IndexOfCharFromFirst(s[..n], c, 0);
    IndexOfCharFromFirst(s, c, 0);
    if k >= 0 {
      assert s[k] == s[..n][k];
      assert forall j :: 0 <= j < k ==> s[j] == s[..n][j];
    }
  }

  /** The first half of collectEmptyQueryInsertions: find the query and its offset. */
  method FindQuery(requestString: string) returns (found: bool, query: string, queryStart: int)
    ensures found <==> QueryOf(requestString).Some?
    ensures found ==> QueryOf(requestString).value == (query, queryStart)
  {
    var firstLineEnd := IndexOf(requestString, CRLF);
    if firstLineEnd <= 0 {
      return false, [], 0;
    }
    var requestLine := requestString[..firstLineEnd];

    var firstSpace := IndexOfCharFrom(requestLine, ' ', 0);
    var secondSpace := LastIndexOfChar(requestLine, ' ');
    if firstSpace < 0 || secondSpace <= firstSpace {
      return false, [], 0;
    }

    var target := requestLine[firstSpace + 1..secondSpace];
    var qIdx := IndexOfCharFrom(target, '?', 0);
    if qIdx < 0 || qIdx + 1 >= |target| {
      return false, [], 0;
    }

    var absoluteTargetStart := firstSpace + 1;
    return true, target[qIdx + 1..], absoluteTargetStart + qIdx + 1;
  }

  /** collectEmptyQueryInsertions(requestString, insertions). */
  method CollectEmptyQueryInsertions(requestString: string, plan: InsertionPlan)
    requires plan.Valid() && AllText(plan.entries, EMPTY_VALUE_PLACEHOLDER)
    modifies plan
    ensures plan.Valid() && AllText(plan.entries, EMPTY_VALUE_PLACEHOLDER)
    ensures AsMap(plan.entries).Keys == AsMap(old(plan.entries)).Keys + Elems(QueryPoints(requestString))
  {
    var found, query, queryStart := FindQuery(requestString);
    if !found {
      NoQueryNoPoints(requestString, AsMap(plan.entries).Keys);
      return;
    }
    assert QueryPoints(requestString) == KeyValuePoints(query, queryStart, 0);
    CollectEmptyKeyValueInsertions(query, queryStart, plan);
  }

  /** Without a query nothing is planned for it. */
  lemma NoQueryNoPoints(requestString: string, keys: set<int>)
    requires QueryOf(requestString).None?
    ensures keys + Elems(QueryPoints(requestString)) == keys
  {
    assert Elems(QueryPoints(requestString)) == {};
  }

  // ---------------------------------------------------------------------------
  // collectEmptyJsonStringValueInsertions
  // ---------------------------------------------------------------------------

  /**
   * The offsets planned for empty JSON strings: for every string token whose
   * text is empty and whose content bounds are found, the bounds' start
   * (plus base); a token whose text cannot be read ends the collection.
   */
  function JsonEmptyStringPoints(json: string, base: int, tokens: seq<JsonToken>, writeString: string -> string): seq<int>
  {
    if tokens == [] then []
    else
      var t := tokens[0];
      var rest := JsonEmptyStringPoints(json, base, tokens[1..], writeString);
      if t.kind != ValueString then rest
      else if t.text.None? then []
      else if t.text.value != [] then rest
      else match Locate(json, t.startHint, t.endHint, t.text, writeString)
        case None => rest
        case Some(b) => [base + b.start] + rest
  }

  /** Each offset (minus base) sits between the two quotes of an empty string literal "". */
  predicate BetweenEmptyQuotes(json: string, base: int, ps: seq<int>)
  {
    forall k :: 0 <= k < |ps| ==>
      && 1 <= ps[k] - base <= |json| - 1
      && json[ps[k] - base - 1] == '"' && json[ps[k] - base] == '"'
  }

  /** Every planned offset sits between the two quotes of an empty string literal "". */
  lemma {:induction false} JsonEmptyStringPointsSpec(json: string, base: int, tokens: seq<JsonToken>, writeString: string -> string)
    ensures BetweenEmptyQuotes(json, base, JsonEmptyStringPoints(json, base, tokens, writeString))
  {
    if tokens != [] {
      JsonEmptyStringPointsSpec(json, base, tokens[1..], writeString);
      JsonPointsStep(json, base, tokens, writeString);
    }
  }

  /** One token of JsonEmptyStringPointsSpec, given the facts for the later tokens. */
  lemma JsonPointsStep(json: string, base: int, tokens: seq<JsonToken>, writeString: string -> string)
    requires tokens != []
    requires BetweenEmptyQuotes(json, base, JsonEmptyStringPoints(json, base, tokens[1..], writeString))
    ensures BetweenEmptyQuotes(json, base, JsonEmptyStringPoints(json, base, tokens, writeString))
  {
    var t := tokens[0];
    var rest := JsonEmptyStringPoints(json, base, tokens[1..], writeString);
    var ps := JsonEmptyStringPoints(json, base, tokens, writeString);
    if t.kind == ValueString && t.text == Some([]) {
      var r := Locate(json, t.startHint, t.endHint, t.text, writeString);
      LocateShape(json, t.startHint, t.endHint, t.text, writeString);
      EmptyTextEmptyBounds(json, t.startHint, t.endHint, t.text, writeString);
      if r.Some? {
        assert ps == [base + r.value.start] + rest;
        assert forall k :: 1 <= k < |ps| ==> ps[k] == rest[k - 1];
      }
    }
  }

  /** What one token contributes to the JSON points: None when its text cannot be read and the collection stops. */
  ghost function TokenPoints(json: string, base: int, t: JsonToken, writeString: string -> string): Option<seq<int>>
  {
    if t.kind != ValueString then Some([])
    else if t.text.None? then None
    else if t.text.value != [] then Some([])
    else match Locate(json, t.startHint, t.endHint, t.text, writeString)
      case None => Some([])
      case Some(b) => Some([base + b.start])
  }

  /** The points of a token list are the first token's points followed by the rest's, unless it stops the collection. */
  lemma TokenPointsSpec(json: string, base: int, tokens: seq<JsonToken>, writeString: string -> string)
    requires tokens != []
    ensures var p := TokenPoints(json, base, tokens[0], writeString);
      && (p.None? ==> JsonEmptyStringPoints(json, base, tokens, writeString) == [])
      && (p.Some? ==> JsonEmptyStringPoints(json, base, tokens, writeString)
                      == p.value + JsonEmptyStringPoints(json, base, tokens[1..], writeString))
  {
  }

  /** One round of collectEmptyJsonStringValueInsertions' loop, planning what TokenPoints says. */
  method PlanEmptyString(lib: JsonLibrary, jsonBody: string, baseOffset: int, token: JsonToken, plan: InsertionPlan)
    returns (stop: bool, ghost added: seq<int>)
    requires plan.Valid() && AllText(plan.entries, EMPTY_VALUE_PLACEHOLDER)
    modifies plan
    ensures plan.Valid() && AllText(plan.entries, EMPTY_VALUE_PLACEHOLDER)
    ensures AsMap(plan.entries).Keys == AsMap(old(plan.entries)).Keys + Elems(added)
    ensures stop <==> TokenPoints(jsonBody, baseOffset, token, lib.writeString).None?
    ensures !stop ==> added == TokenPoints(jsonBody, baseOffset, token, lib.writeString).value
    ensures stop ==> added == []
  {
    if token.kind != ValueString {
      return false, [];
    }
    if token.text.None? {
      return true, [];
    }
    var value := token.text.value;
    if value != [] {
      return false, [];
    }
    var bounds := LocateStringTokenContentBounds(jsonBody, token.startHint, token.endHint, token.text, lib.writeString);
    if bounds.None? {
      return false, [];
    }
    plan.PutIfAbsent(baseOffset + bounds.value.start, EMPTY_VALUE_PLACEHOLDER);
    assert Elems([baseOffset + bounds.value.start]) == {baseOffset + bounds.value.start};
    return false, [baseOffset + bounds.value.start];
  }

  /** collectEmptyJsonStringValueInsertions(jsonBody, baseOffset, insertions) over the parser's tokens. */
  method CollectEmptyJsonStringValueInsertions(lib: JsonLibrary, jsonBody: string, baseOffset: int, plan: InsertionPlan)
    requires plan.Valid() && AllText(plan.entries, EMPTY_VALUE_PLACEHOLDER)
    modifies plan
    ensures plan.Valid() && AllText(plan.entries, EMPTY_VALUE_PLACEHOLDER)
    ensures AsMap(plan.entries).Keys ==
      AsMap(old(plan.entries)).Keys + Elems(JsonEmptyStringPoints(jsonBody, baseOffset, lib.tokens(jsonBody), lib.writeString))
  {
    var tokens := lib.tokens(jsonBody);
    ghost var all := JsonEmptyStringPoints(jsonBody, baseOffset, tokens, lib.writeString);
    ghost var keys0 := AsMap(plan.entries).Keys;
    ghost var done: seq<int> := [];
    assert tokens[0..] == tokens;
    var n := 0;
    while n < |tokens|
      invariant n <= |tokens| && plan.Valid() && AllText(plan.entries, EMPTY_VALUE_PLACEHOLDER)
      invariant done + JsonEmptyStringPoints(jsonBody, baseOffset, tokens[n..], lib.writeString) == all
      invariant AsMap(plan.entries).Keys == keys0 + Elems(done)
      decreases |tokens| - n
    {
      var token := tokens[n];
      assert tokens[n..][1..] == tokens[n + 1..];
      TokenPointsSpec(jsonBody, baseOffset, tokens[n..], lib.writeString);
      var stop, added := PlanEmptyString(lib, jsonBody, baseOffset, token, plan);
      assert Elems(done + added) == Elems(done) + Elems(added);
      if stop {
        Regroup(done, added, [], all);
        done := done + added;
        break;
      }
      Regroup(done, added, JsonEmptyStringPoints(jsonBody, baseOffset, tokens[n + 1..], lib.writeString), all);
      done := done + added;
      n := n + 1;
    }
    if n >= |tokens| {
      assert tokens[n..] == [];
      Regroup(done, [], [], all);
      assert done + [] == done;
    }
  }

  // ---------------------------------------------------------------------------
  // apply: planning
  // ---------------------------------------------------------------------------

  /** Where the body starts: 4 past the first CRLFCRLF, or -1. */
  function BodyStart(requestString: string): int
  {
    var k := IndexOf(requestString, BLANK_LINE);
    if k >= 0 then k + 4 else -1
  }

  function BodyOf(requestString: string): string
  {
    var bodyStart := BodyStart(requestString);
    if bodyStart >= 0 && bodyStart <= |requestString| then requestString[bodyStart..] else []
  }

  predicate LooksJson(contentType: string, body: string)
  {
    Contains(contentType, "json") || StartsWith(Trim(body), "{") || StartsWith(Trim(body), "[")
  }

  predicate LooksXml(contentType: string, body: string)
  {
    Contains(contentType, "xml") || StartsWith(Trim(body), "<")
  }

  /** The key=value body scan runs only for a body that is neither JSON-like nor XML-like. */
  predicate CanScanKeyValueBody(contentType: string, requestString: string)
  {
    !LooksJson(contentType, BodyOf(requestString)) && !LooksXml(contentType, BodyOf(requestString))
    && BodyStart(requestString) >= 0
  }

  predicate ScansJsonBody(contentType: string, requestString: string)
  {
    LooksJson(contentType, BodyOf(requestString)) && BodyStart(requestString) >= 0 && BodyOf(requestString) != []
  }

  /** The planned insertions, in ascending offset order, after the three collectors ran. */
  function Plan(request: HttpRequest, requestString: string, lib: JsonLibrary): seq<InsertionOp>
  {
    var contentType := GetContentType(request);
    var bodyStart := BodyStart(requestString);
    var body := BodyOf(requestString);
    var afterQuery := PutAll([], QueryPoints(requestString), EMPTY_VALUE_PLACEHOLDER);
    var afterForm :=
      if CanScanKeyValueBody(contentType, requestString)
      then PutAll(afterQuery, KeyValuePoints(body, bodyStart, 0), EMPTY_VALUE_PLACEHOLDER)
      else afterQuery;
    if ScansJsonBody(contentType, requestString)
    then PutAll(afterForm, JsonEmptyStringPoints(body, bodyStart, lib.tokens(body), lib.writeString), EMPTY_VALUE_PLACEHOLDER)
    else afterForm
  }

  lemma BodyShape(requestString: string)
    ensures BodyStart(requestString) >= 0 ==>
      BodyStart(requestString) + |BodyOf(requestString)| == |requestString| && BodyStart(requestString) >= 4
  {
  }

  /** The offsets the three collectors plan for this request. */
  function PlannedOffsets(request: HttpRequest, requestString: string, lib: JsonLibrary): set<int>
  {
    var contentType := GetContentType(request);
    var body := BodyOf(requestString);
    Elems(QueryPoints(requestString))
    + (if CanScanKeyValueBody(contentType, requestString)
       then Elems(KeyValuePoints(body, BodyStart(requestString), 0)) else {})
    + (if ScansJsonBody(contentType, requestString)
       then Elems(JsonEmptyStringPoints(body, BodyStart(requestString), lib.tokens(body), lib.writeString)) else {})
  }

  /**
   * The plan holds one sentinel insertion per planned offset and nothing
   * else, in strictly ascending offset order.
   */
  lemma PlanKeys(request: HttpRequest, requestString: string, lib: JsonLibrary)
    ensures var plan := Plan(request, requestString, lib);
      && StrictlyAscending(plan) && AllText(plan, EMPTY_VALUE_PLACEHOLDER)
      && AsMap(plan).Keys == PlannedOffsets(request, requestString, lib)
  {
    var contentType := GetContentType(request);
    var bodyStart := BodyStart(requestString);
    var body := BodyOf(requestString);
    var afterQuery := PutAll([], QueryPoints(requestString), EMPTY_VALUE_PLACEHOLDER);
    PutAllSpec([], QueryPoints(requestString), EMPTY_VALUE_PLACEHOLDER);
    var afterForm :=
      if CanScanKeyValueBody(contentType, requestString)
      then PutAll(afterQuery, KeyValuePoints(body, bodyStart, 0), EMPTY_VALUE_PLACEHOLDER)
      else afterQuery;
    PutAllSpec(afterQuery, KeyValuePoints(body, bodyStart, 0), EMPTY_VALUE_PLACEHOLDER);
    PutAllSpec(afterForm, JsonEmptyStringPoints(body, bodyStart, lib.tokens(body), lib.writeString), EMPTY_VALUE_PLACEHOLDER);
  }

  /** Every planned offset lies inside the request text, 0 <= p <= |requestString|. */
  lemma PlannedOffsetsInText(request: HttpRequest, requestString: string, lib: JsonLibrary)
    ensures forall p :: p in PlannedOffsets(request, requestString, lib) ==> 0 <= p <= |requestString|
  {
    var bodyStart := BodyStart(requestString);
    var body := BodyOf(requestString);
    var qs := QueryPoints(requestString);
    var kv := KeyValuePoints(body, bodyStart, 0);
    var js := JsonEmptyStringPoints(body, bodyStart, lib.tokens(body), lib.writeString);
    QueryPointsSpec(requestString);
    KeyValuePointsSound(body, bodyStart, 0);
    JsonEmptyStringPointsSpec(body, bodyStart, lib.tokens(body), lib.writeString);
    BodyShape(requestString);
    forall p | p in qs ensures 0 <= p <= |requestString| {
      var k :| 0 <= k < |qs| && qs[k] == p;
      assert EmptyQueryValueAt(requestString, IndexOf(requestString, CRLF), qs[k]);
    }
    if bodyStart >= 0 {
      forall p | p in kv ensures 0 <= p <= |requestString| {
        var k :| 0 <= k < |kv| && kv[k] == p;
      }
      forall p | p in js ensures 0 <= p <= |requestString| {
        var k :| 0 <= k < |js| && js[k] == p;
      }
    }
  }

  /**
   * The plan holds one sentinel insertion per planned offset, strictly
   * ascending, every offset inside the request text.
   */
  lemma PlanSpec(request: HttpRequest, requestString: string, lib: JsonLibrary)
    ensures var plan := Plan(request, requestString, lib);
      && StrictlyAscending(plan) && AllText(plan, EMPTY_VALUE_PLACEHOLDER)
      && (forall op :: op in plan ==> 0 <= op.index <= |requestString|)
      && AsMap(plan).Keys == PlannedOffsets(request, requestString, lib)
  {
    PlanKeys(request, requestString, lib);
    PlannedOffsetsInText(request, requestString, lib);
    AsMapHas(Plan(request, requestString, lib));
  }

  // ---------------------------------------------------------------------------
  // apply: splicing
  // ---------------------------------------------------------------------------

  /** An entry the splice loop skips: outside the text or before the cursor. */
  predicate Skipped(s: string, op: InsertionOp, cursor: int)
  {
    op.index < 0 || op.index > |s| || op.index < cursor
  }

  /** The modified text the splice loop builds from the entries, with the copy resumed at `cursor`. */
  function SpliceFrom(s: string, plan: seq<InsertionOp>, cursor: nat): string
    requires cursor <= |s|
  {
    if plan == [] then s[cursor..]
    else if Skipped(s, plan[0], cursor) then SpliceFrom(s, plan[1..], cursor)
    else s[cursor..plan[0].index] + plan[0].text + SpliceFrom(s, plan[1..], plan[0].index)
  }

  /** The operations the splice loop records. */
  function AppliedFrom(s: string, plan: seq<InsertionOp>, cursor: nat): seq<InsertionOp>
    requires cursor <= |s|
  {
    if plan == [] then []
    else if Skipped(s, plan[0], cursor) then AppliedFrom(s, plan[1..], cursor)
    else [plan[0]] + AppliedFrom(s, plan[1..], plan[0].index)
  }

  /** The sentinel ranges the splice loop records, when `outPos` characters have been written so far. */
  function SentinelRangesFrom(s: string, plan: seq<InsertionOp>, cursor: nat, outPos: int): seq<Range>
    requires cursor <= |s|
  {
    if plan == [] then []
    else if Skipped(s, plan[0], cursor) then SentinelRangesFrom(s, plan[1..], cursor, outPos)
    else
      var start := outPos + (plan[0].index - cursor);
      [Range(start, start + |plan[0].text|)] + SentinelRangesFrom(s, plan[1..], plan[0].index, start + |plan[0].text|)
  }

  /** The result apply returns. */
  function ApplyResult(request: HttpRequest, requestString: string, lib: JsonLibrary): PlaceholderResult
  {
    var plan := Plan(request, requestString, lib);
    if plan == [] then PlaceholderResult(requestString, [], [], false)
    else PlaceholderResult(SpliceFrom(requestString, plan, 0), SentinelRangesFrom(requestString, plan, 0, 0),
                           AppliedFrom(requestString, plan, 0), true)
  }

  /** The total length of the inserted texts. */
  function TextLength(ops: seq<InsertionOp>): nat
  {
    if ops == [] then 0 else |ops[0].text| + TextLength(ops[1..])
  }

  /** The text with the given ranges cut out, read from `from` on. */
  function Cut(w: string, rs: seq<Range>, from: int): string
  {
    if !(0 <= from <= |w|) then []
    else if rs == [] then w[from..]
    else if !(from <= rs[0].start <= rs[0].end <= |w|) then []
    else w[from..rs[0].start] + Cut(w, rs[1..], rs[0].end)
  }

  /** The spliced text is the rest of the original plus every applied text. */
  lemma {:induction false} SpliceLength(s: string, plan: seq<InsertionOp>, cursor: nat)
    requires cursor <= |s|
    ensures |SpliceFrom(s, plan, cursor)| == |s| - cursor + TextLength(AppliedFrom(s, plan, cursor))
  {
    if plan != [] {
      if Skipped(s, plan[0], cursor) {
        SpliceLength(s, plan[1..], cursor);
      } else {
        SpliceLength(s, plan[1..], plan[0].index);
        assert AppliedFrom(s, plan, cursor)[1..] == AppliedFrom(s, plan[1..], plan[0].index);
      }
    }
  }

  /**
   * The sentinel ranges pair up with the applied entries: the k-th starts at
   * its entry's offset shifted by what was written before the cursor and by
   * the texts inserted before it, and is as long as its text.
   */
  lemma {:induction false} SentinelStarts(s: string, plan: seq<InsertionOp>, cursor: nat, outPos: int)
    requires cursor <= |s|
    ensures var rs := SentinelRangesFrom(s, plan, cursor, outPos);
      var ops := AppliedFrom(s, plan, cursor);
      && |rs| == |ops|
      && forall k :: 0 <= k < |rs| ==>
           && rs[k].start == outPos + ops[k].index - cursor + TextLength(ops[..k])
           && rs[k].end == rs[k].start + |ops[k].text|
  {
    if plan != [] {
      if Skipped(s, plan[0], cursor) {
        SentinelStarts(s, plan[1..], cursor, outPos);
      } else {
        var op := plan[0];
        var next := outPos + (op.index - cursor) + |op.text|;
        SentinelStarts(s, plan[1..], op.index, next);
        SentinelStartsStep(s, plan, cursor, outPos);
      }
    }
  }

  /** One applied entry of SentinelStarts, given the facts for the later ones. */
  lemma SentinelStartsStep(s: string, plan: seq<InsertionOp>, cursor: nat, outPos: int)
    requires cursor <= |s| && plan != [] && !Skipped(s, plan[0], cursor)
    requires var op := plan[0];
      var rs := SentinelRangesFrom(s, plan[1..], op.index, outPos + (op.index - cursor) + |op.text|);
      var ops := AppliedFrom(s, plan[1..], op.index);
      && |rs| == |ops|
      && forall k :: 0 <= k < |rs| ==>
           && rs[k].start == outPos + (op.index - cursor) + |op.text| + ops[k].index - op.index + TextLength(ops[..k])
           && rs[k].end == rs[k].start + |ops[k].text|
    ensures var rs := SentinelRangesFrom(s, plan, cursor, outPos);
      var ops := AppliedFrom(s, plan, cursor);
      && |rs| == |ops|
      && forall k :: 0 <= k < |rs| ==>
           && rs[k].start == outPos + ops[k].index - cursor + TextLength(ops[..k])
           && rs[k].end == rs[k].start + |ops[k].text|
  {
    var op := plan[0];
    var start := outPos + (op.index - cursor);
    var tailRs := SentinelRangesFrom(s, plan[1..], op.index, start + |op.text|);
    var tailOps := AppliedFrom(s, plan[1..], op.index);
    assert SentinelRangesFrom(s, plan, cursor, outPos) == [Range(start, start + |op.text|)] + tailRs;
    assert AppliedFrom(s, plan, cursor) == [op] + tailOps;
    StartsCons(op, tailRs, tailOps, cursor, outPos);
  }

  /** Prepending one applied entry to ranges and operations that satisfy the start formula keeps it. */
  lemma StartsCons(op: InsertionOp, rs: seq<Range>, ops: seq<InsertionOp>, cursor: int, outPos: int)
    requires |rs| == |ops|
    requires forall k :: 0 <= k < |rs| ==>
           && rs[k].start == outPos + (op.index - cursor) + |op.text| + ops[k].index - op.index + TextLength(ops[..k])
           && rs[k].end == rs[k].start + |ops[k].text|
    ensures var start := outPos + (op.index - cursor);
      var rs' := [Range(start, start + |op.text|)] + rs;
      var ops' := [op] + ops;
      forall k :: 0 <= k < |rs'| ==>
           && rs'[k].start == outPos + ops'[k].index - cursor + TextLength(ops'[..k])
           && rs'[k].end == rs'[k].start + |ops'[k].text|
  {
    var start := outPos + (op.index - cursor);
    var rs' := [Range(start, start + |op.text|)] + rs;
    var ops' := [op] + ops;
    forall k | 0 <= k < |rs'|
      ensures rs'[k].start == outPos + ops'[k].index - cursor + TextLength(ops'[..k])
      ensures rs'[k].end == rs'[k].start + |ops'[k].text|
    {
      if k == 0 {
        assert ops'[..0] == [];
      } else {
        assert rs'[k] == rs[k - 1] && ops'[k] == ops[k - 1];
        assert ops'[..k] == [op] + ops[..k - 1];
        TextLengthCons(op, ops[..k - 1]);
      }
    }
  }

  /** The sentinel ranges start at or after `outPos`, ascend and do not overlap. */
  lemma {:induction false} SentinelOrder(s: string, plan: seq<InsertionOp>, cursor: nat, outPos: int)
    requires cursor <= |s|
    ensures var rs := SentinelRangesFrom(s, plan, cursor, outPos);
      && (forall k :: 0 <= k < |rs| ==> outPos <= rs[k].start <= rs[k].end)
      && SortedDisjoint(rs)
  {
    if plan != [] {
      if Skipped(s, plan[0], cursor) {
        SentinelOrder(s, plan[1..], cursor, outPos);
      } else {
        var op := plan[0];
        var start := outPos + (op.index - cursor);
        var rest := SentinelRangesFrom(s, plan[1..], op.index, start + |op.text|);
        SentinelOrder(s, plan[1..], op.index, start + |op.text|);
        SortedDisjointCons(Range(start, start + |op.text|), rest);
      }
    }
  }

  /** A range placed before ranges that all start at or after its end. */
  lemma SortedDisjointCons(r: Range, rest: seq<Range>)
    requires r.start <= r.end && SortedDisjoint(rest)
    requires forall k :: 0 <= k < |rest| ==> r.end <= rest[k].start <= rest[k].end
    ensures SortedDisjoint([r] + rest)
    ensures forall k :: 0 <= k < |[r] + rest| ==> r.start <= ([r] + rest)[k].start <= ([r] + rest)[k].end
  {
    var rs := [r] + rest;
    assert forall k :: 1 <= k < |rs| ==> rs[k] == rest[k - 1];
  }

  /** Written after `pre`, every sentinel range holds exactly its applied text. */
  lemma {:induction false} SpliceHoldsTexts(s: string, plan: seq<InsertionOp>, cursor: nat, pre: string)
    requires cursor <= |s|
    ensures var w := pre + SpliceFrom(s, plan, cursor);
      var rs := SentinelRangesFrom(s, plan, cursor, |pre|);
      var ops := AppliedFrom(s, plan, cursor);
      |rs| == |ops| && HoldsTexts(w, rs, ops, |pre|)
  {
    if plan != [] {
      if Skipped(s, plan[0], cursor) {
        SpliceHoldsTexts(s, plan[1..], cursor, pre);
      } else {
        var op := plan[0];
        var pre' := pre + s[cursor..op.index] + op.text;
        SpliceHoldsTexts(s, plan[1..], op.index, pre');
        var w := pre + SpliceFrom(s, plan, cursor);
        var start := |pre| + (op.index - cursor);
        var next := start + |op.text|;
        assert |pre'| == next;
        var rest := SentinelRangesFrom(s, plan[1..], op.index, next);
        assert SentinelRangesFrom(s, plan, cursor, |pre|) == [Range(start, next)] + rest;
        assert AppliedFrom(s, plan, cursor) == [op] + AppliedFrom(s, plan[1..], op.index);
        assert w == pre' + SpliceFrom(s, plan[1..], op.index);
        SpliceParts(pre, s[cursor..op.index], op.text, SpliceFrom(s, plan[1..], op.index));
        HoldsTextsCons(w, Range(start, next), op, rest, AppliedFrom(s, plan[1..], op.index), |pre|);
      }
    }
  }

  /** Cutting the sentinel ranges out gives back the original from the cursor on. */
  lemma {:induction false} SpliceCut(s: string, plan: seq<InsertionOp>, cursor: nat, pre: string)
    requires cursor <= |s|
    ensures Cut(pre + SpliceFrom(s, plan, cursor), SentinelRangesFrom(s, plan, cursor, |pre|), |pre|) == s[cursor..]
  {
    var w := pre + SpliceFrom(s, plan, cursor);
    if plan == [] {
      assert w[|pre|..] == s[cursor..];
    } else if Skipped(s, plan[0], cursor) {
      SpliceCut(s, plan[1..], cursor, pre);
    } else {
      var op := plan[0];
      var pre' := pre + s[cursor..op.index] + op.text;
      SpliceCut(s, plan[1..], op.index, pre');
      var start := |pre| + (op.index - cursor);
      var next := start + |op.text|;
      assert |pre'| == next;
      var rest := SentinelRangesFrom(s, plan[1..], op.index, next);
      assert SentinelRangesFrom(s, plan, cursor, |pre|) == [Range(start, next)] + rest;
      assert w == pre' + SpliceFrom(s, plan[1..], op.index);
      SpliceParts(pre, s[cursor..op.index], op.text, SpliceFrom(s, plan[1..], op.index));
      CutCons(w, Range(start, next), rest, |pre|);
      SliceSplit(s, cursor, op.index);
    }
  }

  /** In pre + mid + text + tail, mid and text sit right after pre. */
  lemma SpliceParts(pre: string, mid: string, text: string, tail: string)
    ensures var w := pre + mid + text + tail;
      && w[|pre|..|pre| + |mid|] == mid
      && w[|pre| + |mid|..|pre| + |mid| + |text|] == text
  {
    var w := pre + mid + text + tail;
    assert w[..|pre| + |mid| + |text|] == pre + mid + text;
  }

  lemma SliceSplit(s: string, a: nat, b: nat)
    requires a <= b <= |s|
    ensures s[a..] == s[a..b] + s[b..]
  {
  }

  /** Each range lies in [lo, |w|] and holds its entry's text. */
  predicate HoldsTexts(w: string, rs: seq<Range>, ops: seq<InsertionOp>, lo: int)
    requires |rs| == |ops|
  {
    forall k :: 0 <= k < |rs| ==> 0 <= lo <= rs[k].start <= rs[k].end <= |w| && w[rs[k].start..rs[k].end] == ops[k].text
  }

  lemma HoldsTextsCons(w: string, r: Range, op: InsertionOp, rs: seq<Range>, ops: seq<InsertionOp>, lo: int)
    requires 0 <= lo <= r.start <= r.end <= |w| && w[r.start..r.end] == op.text
    requires |rs| == |ops| && HoldsTexts(w, rs, ops, r.end)
    ensures HoldsTexts(w, [r] + rs, [op] + ops, lo)
  {
    assert forall k :: 1 <= k < |rs| + 1 ==> ([r] + rs)[k] == rs[k - 1] && ([op] + ops)[k] == ops[k - 1];
  }

  /** Cutting a first range out of the text. */
  lemma CutCons(w: string, r: Range, rs: seq<Range>, from: int)
    requires 0 <= from <= r.start <= r.end <= |w|
    ensures Cut(w, [r] + rs, from) == w[from..r.start] + Cut(w, rs, r.end)
  {
    assert ([r] + rs)[1..] == rs;
  }

  lemma TextLengthCons(op: InsertionOp, ops: seq<InsertionOp>)
    ensures TextLength([op] + ops) == |op.text| + TextLength(ops)
  {
    assert ([op] + ops)[1..] == ops;
  }

  /** Strictly ascending entries inside the text are all applied. */
  lemma {:induction false} AppliedAll(s: string, plan: seq<InsertionOp>, cursor: nat)
    requires cursor <= |s|
    requires StrictlyAscending(plan)
    requires forall op :: op in plan ==> cursor <= op.index <= |s|
    ensures AppliedFrom(s, plan, cursor) == plan
  {
    if plan != [] {
      assert plan[0] in plan;
      forall op | op in plan[1..] ensures plan[0].index <= op.index <= |s| {
        var k :| 0 <= k < |plan[1..]| && plan[1..][k] == op;
        assert plan[k + 1] == op;
      }
      AppliedAll(s, plan[1..], plan[0].index);
    }
  }

  lemma {:induction false} UniformTextLength(ops: seq<InsertionOp>, text: string)
    requires AllText(ops, text)
    ensures TextLength(ops) == |ops| * |text|
  {
    if ops != [] {
      assert ops[0] in ops;
      UniformTextLength(ops[1..], text);
    }
  }

  /**
   * Splicing an ascending plan of sentinels, all inside the text: every
   * entry is applied, the text grows by 13 characters per entry, and the
   * k-th range starts at the entry's offset plus 13 k.
   */
  lemma SpliceSentinels(s: string, plan: seq<InsertionOp>)
    requires StrictlyAscending(plan) && AllText(plan, EMPTY_VALUE_PLACEHOLDER)
    requires forall op :: op in plan ==> 0 <= op.index <= |s|
    ensures var w := SpliceFrom(s, plan, 0);
      var rs := SentinelRangesFrom(s, plan, 0, 0);
      && AppliedFrom(s, plan, 0) == plan
      && |w| == |s| + |EMPTY_VALUE_PLACEHOLDER| * |plan|
      && |rs| == |plan|
      && (forall k :: 0 <= k < |rs| ==> rs[k].start == plan[k].index + |EMPTY_VALUE_PLACEHOLDER| * k)
  {
    AppliedAll(s, plan, 0);
    SpliceLength(s, plan, 0);
    UniformTextLength(plan, EMPTY_VALUE_PLACEHOLDER);
    SentinelOffsets(s, plan);
  }

  /**
   * Once every sentinel is applied, each range is in bounds and holds the
   * sentinel, the ranges ascend without overlap, and cutting them out gives
   * back the text.
   */
  lemma SentinelRanges(s: string, plan: seq<InsertionOp>)
    requires AllText(plan, EMPTY_VALUE_PLACEHOLDER) && AppliedFrom(s, plan, 0) == plan
    ensures var w := SpliceFrom(s, plan, 0);
      var rs := SentinelRangesFrom(s, plan, 0, 0);
      && |rs| == |plan|
      && (forall k :: 0 <= k < |rs| ==> InBounds(rs[k], |w|) && w[rs[k].start..rs[k].end] == EMPTY_VALUE_PLACEHOLDER)
      && SortedDisjoint(rs)
      && Cut(w, rs, 0) == s
  {
    SentinelOrder(s, plan, 0, 0);
    SpliceHoldsTexts(s, plan, 0, []);
    SpliceCut(s, plan, 0, []);
    assert [] + SpliceFrom(s, plan, 0) == SpliceFrom(s, plan, 0);
    var rs := SentinelRangesFrom(s, plan, 0, 0);
    forall k | 0 <= k < |rs| ensures plan[k].text == EMPTY_VALUE_PLACEHOLDER {
      assert plan[k] in plan;
    }
  }

  /** With every entry applied, the k-th range starts 13 k after its entry's offset. */
  lemma SentinelOffsets(s: string, plan: seq<InsertionOp>)
    requires AllText(plan, EMPTY_VALUE_PLACEHOLDER) && AppliedFrom(s, plan, 0) == plan
    ensures var rs := SentinelRangesFrom(s, plan, 0, 0);
      |rs| == |plan| && forall k :: 0 <= k < |rs| ==> rs[k].start == plan[k].index + |EMPTY_VALUE_PLACEHOLDER| * k
  {
    SentinelStarts(s, plan, 0, 0);
    var rs := SentinelRangesFrom(s, plan, 0, 0);
    forall k | 0 <= k < |rs| ensures rs[k].start == plan[k].index + |EMPTY_VALUE_PLACEHOLDER| * k {
      forall op | op in plan[..k] ensures op.text == EMPTY_VALUE_PLACEHOLDER {
        assert op in plan;
      }
      UniformTextLength(plan[..k], EMPTY_VALUE_PLACEHOLDER);
    }
  }

  /**
   * What apply promises. Without planned insertions the request text comes
   * back unchanged with empty lists and no changes. Otherwise every planned
   * insertion is applied in ascending offset order; the text grows by 13
   * characters per insertion; the k-th sentinel range covers exactly the
   * sentinel at its planned offset plus 13 k; the ranges are in bounds,
   * ascending and disjoint; and cutting them out gives back the original.
   */
  lemma ApplyResultSpec(request: HttpRequest, requestString: string, lib: JsonLibrary)
    ensures var plan := Plan(request, requestString, lib);
      var r := ApplyResult(request, requestString, lib);
      var w := r.modifiedRequestString;
      && (plan == [] <==> !r.hasChanges)
      && (plan == [] ==> w == requestString && r.placeholderRanges == [] && r.insertions == [])
      && r.insertions == plan
      && StrictlyAscending(r.insertions)
      && (forall op :: op in r.insertions ==> 0 <= op.index <= |requestString| && op.text == EMPTY_VALUE_PLACEHOLDER)
      && |w| == |requestString| + |EMPTY_VALUE_PLACEHOLDER| * |r.insertions|
      && |r.placeholderRanges| == |r.insertions|
      && (forall k :: 0 <= k < |r.placeholderRanges| ==>
            && InBounds(r.placeholderRanges[k], |w|)
            && r.placeholderRanges[k].start == r.insertions[k].index + |EMPTY_VALUE_PLACEHOLDER| * k
            && w[r.placeholderRanges[k].start..r.placeholderRanges[k].end] == EMPTY_VALUE_PLACEHOLDER)
      && SortedDisjoint(r.placeholderRanges)
      && Cut(w, r.placeholderRanges, 0) == requestString
  {
    var plan := Plan(request, requestString, lib);
    PlanSpec(request, requestString, lib);
    if plan != [] {
      SpliceSentinels(requestString, plan);
      SentinelRanges(requestString, plan);
    } else {
      assert Cut(requestString, [], 0) == requestString[0..];
    }
  }

  /** apply(request, requestString), the JSON parser passed in. */
  method Apply(lib: JsonLibrary, request: HttpRequest, requestString: string) returns (result: PlaceholderResult)
    ensures result == ApplyResult(request, requestString, lib)
  {
    var plan := new InsertionPlan();
    var contentType := GetContentType(request);

    var bodyStart := IndexOf(requestString, BLANK_LINE);
    bodyStart := if bodyStart >= 0 then bodyStart + 4 else -1;
    var body := if bodyStart >= 0 && bodyStart <= |requestString| then requestString[bodyStart..] else [];
    assert bodyStart == BodyStart(requestString) && body == BodyOf(requestString);

    assert AsMap(plan.entries).Keys == {};
    CollectEmptyQueryInsertions(requestString, plan);
    ghost var planned := Elems(QueryPoints(requestString));

    var looksJson := Contains(contentType, "json") || StartsWith(Trim(body), "{") || StartsWith(Trim(body), "[");
    var looksXml := Contains(contentType, "xml") || StartsWith(Trim(body), "<");
    var canScanKeyValueBody := !looksJson && !looksXml && bodyStart >= 0;
    assert canScanKeyValueBody == CanScanKeyValueBody(contentType, requestString);
    if canScanKeyValueBody {
      CollectEmptyKeyValueInsertions(body, bodyStart, plan);
      planned := planned + Elems(KeyValuePoints(body, bodyStart, 0));
    }

    assert (looksJson && bodyStart >= 0 && body != []) == ScansJsonBody(contentType, requestString);
    if looksJson && bodyStart >= 0 && body != [] {
      CollectEmptyJsonStringValueInsertions(lib, body, bodyStart, plan);
      planned := planned + Elems(JsonEmptyStringPoints(body, bodyStart, lib.tokens(body), lib.writeString));
    }
    assert planned == PlannedOffsets(request, requestString, lib);

    PlanKeys(request, requestString, lib);
    AscendingUnique(plan.entries, Plan(request, requestString, lib), EMPTY_VALUE_PLACEHOLDER);
    if plan.IsEmpty() {
      return PlaceholderResult(requestString, [], [], false);
    }

    var modified, placeholderRanges, ops := Splice(requestString, plan.entries);
    result := PlaceholderResult(modified, placeholderRanges, ops, true);
  }

  /** The splice loop of apply over the planned entries in ascending order. */
  method Splice(requestString: string, entries: seq<InsertionOp>)
    returns (modified: string, placeholderRanges: seq<Range>, ops: seq<InsertionOp>)
    ensures modified == SpliceFrom(requestString, entries, 0)
    ensures placeholderRanges == SentinelRangesFrom(requestString, entries, 0, 0)
    ensures ops == AppliedFrom(requestString, entries, 0)
  {
    ops := [];
    placeholderRanges := [];
    modified := [];
    var cursor: nat := 0;
    var n := 0;
    while n < |entries|
      invariant n <= |entries| && cursor <= |requestString|
      invariant modified + SpliceFrom(requestString, entries[n..], cursor) == SpliceFrom(requestString, entries, 0)
      invariant ops + AppliedFrom(requestString, entries[n..], cursor) == AppliedFrom(requestString, entries, 0)
      invariant placeholderRanges + SentinelRangesFrom(requestString, entries[n..], cursor, |modified|)
             == SentinelRangesFrom(requestString, entries, 0, 0)
      decreases |entries| - n
    {
      var insertAt := entries[n].index;
      var text := entries[n].text;
      SpliceStep(requestString, entries, n, cursor, |modified|);
      if insertAt < 0 || insertAt > |requestString| || insertAt < cursor {
        n := n + 1;
        continue;
      }

      ghost var tail := SpliceFrom(requestString, entries[n + 1..], insertAt);
      ghost var rangesTail := SentinelRangesFrom(requestString, entries[n + 1..], insertAt, |modified| + (insertAt - cursor) + |text|);
      ghost var opsTail := AppliedFrom(requestString, entries[n + 1..], insertAt);
      ConcatAssoc4(modified, requestString[cursor..insertAt], text, tail);
      modified := modified + requestString[cursor..insertAt];
      var newInsertStart := |modified|;
      modified := modified + text;
      var newInsertEnd := |modified|;

      ConcatAssoc(ops, [InsertionOp(insertAt, text)], opsTail);
      ConcatAssoc(placeholderRanges, [Range(newInsertStart, newInsertEnd)], rangesTail);
      ops := ops + [InsertionOp(insertAt, text)];
      placeholderRanges := placeholderRanges + [Range(newInsertStart, newInsertEnd)];

      cursor := insertAt;
      n := n + 1;
    }
    assert modified + requestString[cursor..] == SpliceFrom(requestString, entries, 0);
    modified := modified + requestString[cursor..];
    assert ops + [] == ops && placeholderRanges + [] == placeholderRanges;
  }

  /** One entry of the splice loop: skipped, or copied up to its offset and inserted. */
  lemma SpliceStep(s: string, plan: seq<InsertionOp>, n: nat, cursor: nat, outPos: int)
    requires n < |plan| && cursor <= |s|
    ensures var op := plan[n];
      Skipped(s, op, cursor) ==>
        && SpliceFrom(s, plan[n..], cursor) == SpliceFrom(s, plan[n + 1..], cursor)
        && AppliedFrom(s, plan[n..], cursor) == AppliedFrom(s, plan[n + 1..], cursor)
        && SentinelRangesFrom(s, plan[n..], cursor, outPos) == SentinelRangesFrom(s, plan[n + 1..], cursor, outPos)
    ensures var op := plan[n];
      !Skipped(s, op, cursor) ==>
        var start := outPos + (op.index - cursor);
        && SpliceFrom(s, plan[n..], cursor) == s[cursor..op.index] + op.text + SpliceFrom(s, plan[n + 1..], op.index)
        && AppliedFrom(s, plan[n..], cursor) == [op] + AppliedFrom(s, plan[n + 1..], op.index)
        && SentinelRangesFrom(s, plan[n..], cursor, outPos)
           == [Range(start, start + |op.text|)] + SentinelRangesFrom(s, plan[n + 1..], op.index, start + |op.text|)
  {
    assert plan[n..][0] == plan[n] && plan[n..][1..] == plan[n + 1..];
  }
}
