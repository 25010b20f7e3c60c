/**
 The technical-specification rows of the product form and the flat JavaScript
 object they become. An object is modelled by its entries in iteration order:
 array-index keys first, ascending, then the others as first inserted.
 */
module Specs {
  import opened Wrappers
  import opened JsText
  import opened Format
  import opened Validate

  type Entry = (string, string)
  type Object = seq<Entry>

  const MAX_ROWS: nat := 40
  const MAX_KEY: nat := 60
  const MAX_VALUE: nat := 300
  const MAX_ARRAY_INDEX: int := 0xFFFF_FFFE

  /** Keys that a JavaScript object enumerates first, in numeric order. */
  predicate IsIndexKey(k: string) {
    && k != "" && (forall c :: c in k ==> IsDigit(c))
    && (k[0] == '0' ==> k == "0")
    && DigitsValue(k) <= MAX_ARRAY_INDEX
  }

  /** k is enumerated before other, whatever the order of insertion. */
  predicate Precedes(k: string, other: string) {
    IsIndexKey(k) && (IsIndexKey(other) ==> DigitsValue(k) < DigitsValue(other))
  }

  predicate HasKey(o: Object, k: string) {
    exists i :: 0 <= i < |o| && o[i].0 == k
  }

  function Insert(o: Object, k: string, v: string): Object {
    if o == [] || Precedes(k, o[0].0) then [(k, v)] + o
    else [o[0]] + Insert(o[1..], k, v)
  }

  function Replace(o: Object, k: string, v: string): Object {
    if o == [] then []
    else (if o[0].0 == k then [(k, v)] else [o[0]]) + Replace(o[1..], k, v)
  }

  /** out[k] = v. Assigning a string to __proto__ is silently ignored. */
  function Put(o: Object, k: string, v: string): Object {
    if k == "__proto__" then o
    else if HasKey(o, k) then Replace(o, k, v)
    else Insert(o, k, v)
  }

  // --------------------------------------------------------- reading rows

  /** The value beside a key; a missing one counts as empty. */
  function ValueAt(values: seq<string>, i: nat): string {
    if i < |values| then CleanText(Some(values[i])) else ""
  }

  /** One row: an empty key is skipped, a text that is too long ends the reading. */
  function ReadRow(before: Checked<Object>, key: string, val: string): Checked<Object> {
    if before.error.Some? || key == "" then before
    else if |key| > MAX_KEY then Checked(before.value, Some(SpecKeyTooLong))
    else if |val| > MAX_VALUE then Checked(before.value, Some(SpecValueTooLong(key)))
    else Checked(Put(before.value, key, val), None)
  }

  /** The object and the problem after the first n rows. */
  function ReadRows(keys: seq<string>, values: seq<string>, n: nat): Checked<Object>
    requires n <= |keys|
  {
    if n == 0 then Checked([], None)
    else ReadRow(ReadRows(keys, values, n - 1), CleanText(Some(keys[n - 1])), ValueAt(values, n - 1))
  }

  function ReadSpecs(keys: seq<string>, values: seq<string>): Checked<Object> {
    if |keys| > MAX_ROWS then Checked([], Some(TooManyRows)) else ReadRows(keys, values, |keys|)
  }

  lemma {:induction false} ReadRowsStops(keys: seq<string>, values: seq<string>, n: nat, m: nat)
    requires n <= m <= |keys| && ReadRows(keys, values, n).error.Some?
    ensures ReadRows(keys, values, m) == ReadRows(keys, values, n)
  {
    hide CleanText, ValueAt, Put;
    if n < m {
      ReadRowsStops(keys, values, n, m - 1);
    }
  }

  /** specsField: the loop leaves early at the first row that is too long. */
  method SpecsField(keys: seq<string>, values: seq<string>) returns (r: Checked<Object>)
    ensures r == ReadSpecs(keys, values)
  {
    hide CleanText, ValueAt, Put;
    if |keys| > MAX_ROWS {
      return Checked([], Some(TooManyRows));
    }
    var out: Object := [];
    for i := 0 to |keys|
      invariant ReadRows(keys, values, i) == Checked(out, None)
    {
      var key := CleanText(Some(keys[i]));
      if key == "" {
        continue;
      }
      if |key| > MAX_KEY {
        ReadRowsStops(keys, values, i + 1, |keys|);
        return Checked(out, Some(SpecKeyTooLong));
      }
      var val := ValueAt(values, i);
      if |val| > MAX_VALUE {
        ReadRowsStops(keys, values, i + 1, |keys|);
        return Checked(out, Some(SpecValueTooLong(key)));
      }
      out := Put(out, key, val);
    }
    return Checked(out, None);
  }

  // --------------------------------------------------------- shape

  predicate DistinctKeys(o: Object) {
    forall i, j :: 0 <= i < j < |o| ==> o[i].0 != o[j].0
  }

  /** Iteration order: an earlier entry is never preceded by a later one. */
  predicate Ordered(o: Object) {
    forall i, j :: 0 <= i < j < |o| && IsIndexKey(o[j].0) ==> Precedes(o[i].0, o[j].0)
  }

  /** Everything JavaScript guarantees of an object that was filled by assignment. */
  predicate WellFormed(o: Object) {
    DistinctKeys(o) && Ordered(o) && forall i :: 0 <= i < |o| ==> o[i].0 != "__proto__"
  }

  /** The entries specsField accepts: cleaned, within the limits. */
  predicate CleanEntry(e: Entry) {
    && CleanText(Some(e.0)) == e.0 && 0 < |e.0| <= MAX_KEY
    && CleanText(Some(e.1)) == e.1 && |e.1| <= MAX_VALUE
  }

  /** Appending is what assignment does to a key that comes last in iteration order. */
  lemma {:induction false} InsertLast(o: Object, k: string, v: string)
    requires WellFormed(o + [(k, v)])
    ensures Insert(o, k, v) == o + [(k, v)]
  {
    if o != [] {
      var w := o + [(k, v)];
      assert w[0] == o[0] && w[|o|] == (k, v);
      assert w[1..] == o[1..] + [(k, v)];
      assert forall i :: 0 <= i < |w[1..]| ==> w[1..][i] == w[i + 1];
      InsertLast(o[1..], k, v);
      assert IsIndexKey(k) ==> Precedes(o[0].0, k);
      assert !Precedes(k, o[0].0);
    }
  }

  lemma PutLast(o: Object, k: string, v: string)
    requires WellFormed(o + [(k, v)])
    ensures Put(o, k, v) == o + [(k, v)]
  {
    var w := o + [(k, v)];
    assert w[|o|].0 == k;
    forall i | 0 <= i < |o|
      ensures o[i].0 != k
    {
      assert w[i].0 != w[|o|].0;
    }
    InsertLast(o, k, v);
  }

  lemma {:induction false} ReplaceShape(o: Object, k: string, v: string)
    ensures |Replace(o, k, v)| == |o|
    ensures forall i :: 0 <= i < |o| ==> Replace(o, k, v)[i] == if o[i].0 == k then (k, v) else o[i]
  {
    if o != [] {
      ReplaceShape(o[1..], k, v);
    }
  }

  lemma {:induction false} InsertShape(o: Object, k: string, v: string) returns (p: nat)
    ensures p <= |o| && Insert(o, k, v) == o[..p] + [(k, v)] + o[p..]
    ensures forall i :: 0 <= i < p ==> !Precedes(k, o[i].0)
    ensures p < |o| ==> Precedes(k, o[p].0)
  {
    hide Precedes;
    p := 0;
    if o != [] && !Precedes(k, o[0].0) {
      var q := InsertShape(o[1..], k, v);
      p := q + 1;
      assert o[..p] == [o[0]] + o[1..][..q];
      assert forall i :: 0 < i < p ==> o[i] == o[1..][i - 1];
    }
  }

  lemma PrecedesTotal(a: string, b: string)
    requires a != b && IsIndexKey(b) && !Precedes(b, a)
    ensures Precedes(a, b)
  {
    if IsIndexKey(a) && DigitsValue(a) == DigitsValue(b) {
      SameValueSameKey(a, b);
    }
  }

  /** Index keys have no leading zeros, so the number determines the key. */
  lemma {:induction false} SameValueSameKey(a: string, b: string)
    requires IsIndexKey(a) && IsIndexKey(b) && DigitsValue(a) == DigitsValue(b)
    ensures a == b
  {
    NoLeadingZero(a);
    NoLeadingZero(b);
  }

  lemma {:induction false} NoLeadingZero(a: string)
    requires a != "" && (forall c :: c in a ==> IsDigit(c)) && (a[0] == '0' ==> a == "0")
    ensures a == Digits(DigitsValue(a))
    decreases |a|
  {
    var init := a[..|a| - 1];
    var last := a[|a| - 1];
    assert last in a;
    assert a == init + [last];
    if init == "" {
      assert DigitsValue(a) == last as int - '0' as int;
    } else {
      assert init[0] == a[0];
      NoLeadingZero(init);
      var v := DigitsValue(a);
      assert v / 10 == DigitsValue(init) && v % 10 == last as int - '0' as int;
    }
  }

  lemma ReplaceKeepsShape(o: Object, k: string, v: string)
    requires WellFormed(o)
    ensures WellFormed(Replace(o, k, v))
    ensures forall e :: e in Replace(o, k, v) ==> e == (k, v) || e in o
  {
    hide Replace, Precedes, IsIndexKey;
    var w := Replace(o, k, v);
    ReplaceShape(o, k, v);
    assert forall i :: 0 <= i < |w| ==> w[i].0 == o[i].0;
    forall i, j | 0 <= i < j < |w| && IsIndexKey(w[j].0)
      ensures Precedes(w[i].0, w[j].0)
    {
      assert Precedes(o[i].0, o[j].0);
    }
  }

  lemma InsertKeepsOrder(o: Object, k: string, v: string)
    requires Ordered(o) && !HasKey(o, k)
    ensures Ordered(Insert(o, k, v))
  {
    hide Insert, DigitsValue;
    var p := InsertShape(o, k, v);
    var w := Insert(o, k, v);
    assert forall i :: 0 <= i < p ==> w[i] == o[i];
    assert forall i :: p < i < |w| ==> w[i] == o[i - 1];
    forall i, j | 0 <= i < j < |w| && IsIndexKey(w[j].0)
      ensures Precedes(w[i].0, w[j].0)
    {
      if j == p {
        PrecedesTotal(o[i].0, k);
      } else if i == p {
        assert p == j - 1 || Precedes(o[p].0, o[j - 1].0);
      } else {
        assert Precedes(o[if i < p then i else i - 1].0, o[if j < p then j else j - 1].0);
      }
    }
  }

  lemma InsertKeepsShape(o: Object, k: string, v: string)
    requires WellFormed(o) && !HasKey(o, k) && k != "__proto__"
    ensures WellFormed(Insert(o, k, v))
    ensures forall e :: e in Insert(o, k, v) ==> e == (k, v) || e in o
  {
    hide Ordered, Insert, Precedes;
    InsertKeepsOrder(o, k, v);
    var p := InsertShape(o, k, v);
    var w := Insert(o, k, v);
    assert w[p] == (k, v);
    assert forall i :: 0 <= i < p ==> w[i] == o[i];
    assert forall i :: p < i < |w| ==> w[i] == o[i - 1];
  }

  /** Assignment keeps the object well formed and changes only the entry of k. */
  lemma PutShape(o: Object, k: string, v: string)
    requires WellFormed(o)
    ensures WellFormed(Put(o, k, v))
    ensures forall e :: e in Put(o, k, v) ==> e == (k, v) || e in o
    ensures |o| <= |Put(o, k, v)| <= |o| + 1
  {
    if k == "__proto__" {
    } else if HasKey(o, k) {
      ReplaceKeepsShape(o, k, v);
      ReplaceShape(o, k, v);
    } else {
      InsertKeepsShape(o, k, v);
      var p := InsertShape(o, k, v);
    }
  }

  /** Reading a key back after an assignment. */
  lemma PutLookup(o: Object, k: string, v: string, e: Entry)
    requires k != "__proto__"
    ensures e in Put(o, k, v) <==> e == (k, v) || (e in o && e.0 != k)
  {
    if HasKey(o, k) {
      var i :| 0 <= i < |o| && o[i].0 == k;
      ReplaceShape(o, k, v);
      var w := Replace(o, k, v);
      assert w[i] == (k, v);
      if e in o && e.0 != k {
        var j :| 0 <= j < |o| && o[j] == e;
        assert w[j] == e;
      }
    } else {
      var p := InsertShape(o, k, v);
      assert o == o[..p] + o[p..];
      assert Insert(o, k, v)[p] == (k, v);
    }
  }

  /** A well-formed object of clean entries, at most n of them. */
  ghost predicate CleanObject(o: Object, n: nat) {
    WellFormed(o) && |o| <= n && forall e :: e in o ==> CleanEntry(e)
  }

  lemma ReadRowShape(before: Checked<Object>, key: string, val: string, n: nat)
    requires CleanObject(before.value, n)
    requires CleanText(Some(key)) == key && CleanText(Some(val)) == val
    ensures CleanObject(ReadRow(before, key, val).value, n + 1)
  {
    PutShape(before.value, key, val);
    assert key != "" && |key| <= MAX_KEY && |val| <= MAX_VALUE ==> CleanEntry((key, val));
  }

  /** What specsField returns is well formed and clean, at most one entry a row. */
  lemma {:induction false} ReadRowsShape(keys: seq<string>, values: seq<string>, n: nat)
    requires n <= |keys|
    ensures CleanObject(ReadRows(keys, values, n).value, n)
  {
    if n > 0 {
      ReadRowsShape(keys, values, n - 1);
      CleanTextShape(Some(keys[n - 1]));
      CleanTextShape(if n - 1 < |values| then Some(values[n - 1]) else None);
      ReadRowShape(ReadRows(keys, values, n - 1), CleanText(Some(keys[n - 1])), ValueAt(values, n - 1), n - 1);
    }
  }

  // --------------------------------------------------------- what the rows become

  /** The row is blank or within the limits. */
  predicate RowFits(keys: seq<string>, values: seq<string>, i: nat)
    requires i < |keys|
  {
    CleanText(Some(keys[i])) == ""
    || (|CleanText(Some(keys[i]))| <= 60 && (i < |values| ==> |CleanText(Some(values[i]))| <= 300))
  }

  lemma {:induction false} RowsAccepted(keys: seq<string>, values: seq<string>, n: nat)
    requires n <= |keys|
    ensures ReadRows(keys, values, n).error == None <==> forall i :: 0 <= i < n ==> RowFits(keys, values, i)
  {
    hide CleanText, Put;
    if n > 0 {
      RowsAccepted(keys, values, n - 1);
      assert RowFits(keys, values, n - 1) <==> ReadRow(Checked([], None), CleanText(Some(keys[n - 1])), ValueAt(values, n - 1)).error == None;
    }
  }

  /** Exactly which rows are accepted. */
  lemma SpecsAccepted(keys: seq<string>, values: seq<string>)
    ensures ReadSpecs(keys, values).error == None <==> |keys| <= 40 && forall i :: 0 <= i < |keys| ==> RowFits(keys, values, i)
  {
    hide CleanText, ReadRows, RowFits;
    RowsAccepted(keys, values, |keys|);
  }

  /** Row i is the last of the first n with key k, and v stands beside it. */
  predicate LastRow(keys: seq<string>, values: seq<string>, n: nat, k: string, v: string, i: nat)
    requires n <= |keys|
  {
    && i < n && CleanText(Some(keys[i])) == k && v == (if i < |values| then CleanText(Some(values[i])) else "")
    && forall j :: i < j < n ==> CleanText(Some(keys[j])) != k
  }

  /** An accepted form keeps, for every key but the empty one and __proto__, the value of its last row, and nothing else. */
  lemma {:induction false} SpecsKept(keys: seq<string>, values: seq<string>, n: nat, k: string, v: string)
    requires n <= |keys| && ReadRows(keys, values, n).error == None
    ensures (k, v) in ReadRows(keys, values, n).value
            <==> k != "" && k != "__proto__" && exists i: nat :: LastRow(keys, values, n, k, v, i)
  {
    hide CleanText, Put;
    if n > 0 {
      var before := ReadRows(keys, values, n - 1);
      var key, val := CleanText(Some(keys[n - 1])), ValueAt(values, n - 1);
      SpecsKept(keys, values, n - 1, k, v);
      LastRowStep(keys, values, n, n - 1, k, v);
      if key != "" && key != "__proto__" {
        PutLookup(before.value, key, val, (k, v));
      } else if key == "__proto__" {
        ProtoIsIgnored(before.value, val);
      }
    }
  }

  lemma ProtoIsIgnored(o: Object, v: string)
    ensures Put(o, "__proto__", v) == o
  {
  }

  lemma LastRowStep(keys: seq<string>, values: seq<string>, n: nat, m: nat, k: string, v: string)
    requires m + 1 == n <= |keys|
    ensures (exists i: nat :: LastRow(keys, values, n, k, v, i)) <==>
            if CleanText(Some(keys[m])) == k then v == ValueAt(values, m)
            else exists i: nat :: LastRow(keys, values, m, k, v, i)
  {
    hide CleanText;
    if i: nat :| LastRow(keys, values, m, k, v, i) {
      assert CleanText(Some(keys[m])) != k ==> LastRow(keys, values, n, k, v, i);
    }
    if i: nat :| LastRow(keys, values, n, k, v, i) {
      assert i < m ==> LastRow(keys, values, m, k, v, i);
    }
    if CleanText(Some(keys[m])) == k && v == ValueAt(values, m) {
      assert LastRow(keys, values, n, k, v, m);
    }
  }

  // --------------------------------------------------------- resubmitting

  /** The rows of a form: the entries of o, then some empty ones. */
  function FormKeys(o: Object, blanks: nat): seq<string> {
    seq(|o| + blanks, i requires 0 <= i < |o| + blanks => if i < |o| then o[i].0 else "")
  }

  function FormValues(o: Object, blanks: nat): seq<string> {
    seq(|o| + blanks, i requires 0 <= i < |o| + blanks => if i < |o| then o[i].1 else "")
  }

  lemma ReadRowExtends(o: Object, n: nat)
    requires WellFormed(o) && n < |o| && CleanEntry(o[n])
    ensures ReadRow(Checked(o[..n], None), o[n].0, o[n].1) == Checked(o[..n + 1], None)
  {
    hide Put, CleanText;
    assert o[..n + 1] == o[..n] + [(o[n].0, o[n].1)];
    PutLast(o[..n], o[n].0, o[n].1);
  }

  lemma FormRow(o: Object, blanks: nat, i: nat)
    requires (forall e :: e in o ==> CleanEntry(e)) && i < |o| + blanks
    ensures CleanText(Some(FormKeys(o, blanks)[i])) == if i < |o| then o[i].0 else ""
    ensures ValueAt(FormValues(o, blanks), i) == if i < |o| then o[i].1 else ""
  {
    if i < |o| {
      assert o[i] in o && CleanEntry(o[i]);
    } else {
      CleanTextShape(None);
    }
  }

  lemma {:induction false} FilledRows(o: Object, blanks: nat, n: nat)
    requires WellFormed(o) && (forall e :: e in o ==> CleanEntry(e)) && n <= |o|
    ensures ReadRows(FormKeys(o, blanks), FormValues(o, blanks), n) == Checked(o[..n], None)
  {
    hide CleanText, WellFormed, ReadRow;
    if n > 0 {
      FilledRows(o, blanks, n - 1);
      FormRow(o, blanks, n - 1);
      assert o[n - 1] in o;
      ReadRowExtends(o, n - 1);
    }
  }

  lemma {:induction false} BlankRows(o: Object, blanks: nat, n: nat)
    requires WellFormed(o) && (forall e :: e in o ==> CleanEntry(e)) && |o| <= n <= |o| + blanks
    ensures ReadRows(FormKeys(o, blanks), FormValues(o, blanks), n) == Checked(o, None)
  {
    hide CleanText, WellFormed, ValueAt;
    if n == |o| {
      FilledRows(o, blanks, n);
      assert o[..n] == o;
    } else {
      BlankRows(o, blanks, n - 1);
      FormRow(o, blanks, n - 1);
    }
  }

  /** The rows of a form rebuild the object, order included, while they and the empty ones fit. */
  lemma ResubmittedSpecs(o: Object, blanks: nat)
    requires WellFormed(o) && forall e :: e in o ==> CleanEntry(e)
    ensures ReadSpecs(FormKeys(o, blanks), FormValues(o, blanks))
            == if |o| + blanks <= MAX_ROWS then Checked(o, None) else Checked([], Some(TooManyRows))
  {
    BlankRows(o, blanks, |o| + blanks);
  }
}
