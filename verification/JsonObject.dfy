/** JSON objects as ordered maps: fields in key order, the last of two equal keys wins. */
module JsonObject {
  import opened Basics
  import opened Json

  /** Byte order of two keys, which for valid text is the order of their characters. */
  predicate Less(a: string, b: string) {
    b != [] && (a == [] || a[0] < b[0] || (a[0] == b[0] && Less(a[1..], b[1..])))
  }

  // The keys agree on their first `n` characters, and then the first one ends or has the
  // smaller character.
  predicate FirstDifference(a: string, b: string, n: nat) {
    n <= |a| && n < |b| && a[..n] == b[..n] && (n == |a| || a[n] < b[n])
  }

  /** Keys are ordered by their first difference. */
  lemma {:induction false} LessIff(a: string, b: string)
    ensures Less(a, b) <==> exists n: nat :: FirstDifference(a, b, n)
    decreases |a|
  {
    if a == [] {
      assert b != [] ==> FirstDifference(a, b, 0);
    } else if b != [] && a[0] == b[0] {
      LessIff(a[1..], b[1..]);
      SharedFirst(a, b);
    } else if b != [] {
      assert a[0] < b[0] ==> FirstDifference(a, b, 0);
    }
  }

  lemma SharedFirst(a: string, b: string)
    requires a != [] && b != [] && a[0] == b[0]
    ensures (exists n: nat :: FirstDifference(a, b, n)) <==> (exists n: nat :: FirstDifference(a[1..], b[1..], n))
  {
    forall n: nat | FirstDifference(a[1..], b[1..], n) ensures FirstDifference(a, b, n + 1) {
      assert a[..n + 1] == [a[0]] + a[1..][..n] && b[..n + 1] == [b[0]] + b[1..][..n];
    }
    forall n: nat | FirstDifference(a, b, n) ensures n > 0 && FirstDifference(a[1..], b[1..], n - 1) {
      assert a[1..][..n - 1] == a[..n][1..] && b[1..][..n - 1] == b[..n][1..];
    }
  }

  lemma {:induction false} LessIsTotal(a: string, b: string)
    ensures Less(a, b) || Less(b, a) || a == b
  {
    if a != [] && b != [] && a[0] == b[0] {
      LessIsTotal(a[1..], b[1..]);
      assert a == [a[0]] + a[1..] && b == [b[0]] + b[1..];
    }
  }

  lemma {:induction false} LessIsStrict(a: string, b: string)
    requires Less(a, b)
    ensures a != b && !Less(b, a)
  {
    if a != [] && a[0] == b[0] {
      LessIsStrict(a[1..], b[1..]);
    }
  }

  lemma {:induction false} LessIsTransitive(a: string, b: string, c: string)
    requires Less(a, b) && Less(b, c)
    ensures Less(a, c)
  {
    if a != [] && a[0] == b[0] && b[0] == c[0] {
      LessIsTransitive(a[1..], b[1..], c[1..]);
    }
  }

  /** Strictly increasing keys. */
  predicate Sorted(fields: seq<Field>) {
    forall i, j :: 0 <= i < j < |fields| ==> Less(fields[i].key, fields[j].key)
  }

  function Insert(fields: seq<Field>, f: Field): (r: seq<Field>)
    ensures forall x :: x in r ==> x in fields || x == f
  {
    if fields == [] then [f]
    else if fields[0].key == f.key then [f] + fields[1..]
    else if Less(f.key, fields[0].key) then [f] + fields
    else [fields[0]] + Insert(fields[1..], f)
  }

  function InsertAll(pairs: seq<Field>): seq<Field> {
    if pairs == [] then [] else Insert(InsertAll(pairs[..|pairs| - 1]), pairs[|pairs| - 1])
  }

  function ObjectOf(pairs: seq<Field>): Json { Obj(InsertAll(pairs)) }

  /** All values written under a key. */
  function Occurrences(fields: seq<Field>, key: string): seq<Json> {
    if fields == [] then []
    else (if fields[0].key == key then [fields[0].value] else []) + Occurrences(fields[1..], key)
  }

  function Get(v: Json, key: string): Option<Json> {
    if v.Obj? && Occurrences(v.fields, key) != [] then Some(Occurrences(v.fields, key)[0]) else None
  }

  lemma {:induction false} InsertKeepsSorted(fields: seq<Field>, f: Field)
    requires Sorted(fields)
    ensures Sorted(Insert(fields, f))
  {
    if fields != [] && fields[0].key != f.key {
      LessIsTotal(f.key, fields[0].key);
      var r := Insert(fields, f);
      if Less(f.key, fields[0].key) {
        forall j | 0 < j < |r| ensures Less(r[0].key, r[j].key) {
          if j > 1 {
            LessIsTransitive(f.key, fields[0].key, fields[j - 1].key);
          }
        }
      } else {
        InsertKeepsSorted(fields[1..], f);
        forall j | 0 < j < |r| ensures Less(r[0].key, r[j].key) {
          assert r[j] in Insert(fields[1..], f);
        }
      }
    }
  }

  lemma {:induction false} AbsentMeansNoOccurrence(fields: seq<Field>, key: string)
    requires forall i :: 0 <= i < |fields| ==> fields[i].key != key
    ensures Occurrences(fields, key) == []
  {
    if fields != [] {
      AbsentMeansNoOccurrence(fields[1..], key);
    }
  }

  lemma BelowAllMeansAbsent(fields: seq<Field>, key: string)
    requires forall i :: 0 <= i < |fields| ==> Less(key, fields[i].key)
    ensures Occurrences(fields, key) == []
  {
    forall i | 0 <= i < |fields| ensures fields[i].key != key {
      LessIsStrict(key, fields[i].key);
    }
    AbsentMeansNoOccurrence(fields, key);
  }

  /** After an insertion the key has exactly the new value and every other key what it
      had before. */
  lemma {:induction false} InsertThenLookUp(fields: seq<Field>, f: Field, key: string)
    requires Sorted(fields)
    ensures Occurrences(Insert(fields, f), key) == if key == f.key then [f.value] else Occurrences(fields, key)
  {
    if fields == [] {
    } else if fields[0].key == f.key {
      assert ([f] + fields[1..])[1..] == fields[1..];
      if key == f.key {
        BelowAllMeansAbsent(fields[1..], key);
      }
    } else if Less(f.key, fields[0].key) {
      assert ([f] + fields)[1..] == fields;
      if key == f.key {
        forall i | 0 <= i < |fields| ensures Less(key, fields[i].key) {
          if i > 0 {
            LessIsTransitive(key, fields[0].key, fields[i].key);
          }
        }
        BelowAllMeansAbsent(fields, key);
      }
    } else {
      assert ([fields[0]] + Insert(fields[1..], f))[1..] == Insert(fields[1..], f);
      InsertThenLookUp(fields[1..], f, key);
    }
  }

  lemma {:induction false} InsertAllIsSorted(pairs: seq<Field>)
    ensures Sorted(InsertAll(pairs))
    ensures forall x :: x in InsertAll(pairs) ==> x in pairs
  {
    if pairs != [] {
      InsertAllIsSorted(pairs[..|pairs| - 1]);
      InsertKeepsSorted(InsertAll(pairs[..|pairs| - 1]), pairs[|pairs| - 1]);
    }
  }

  /** The value a list of pairs gives to a key: the last one written. */
  function LastOf(pairs: seq<Field>, key: string): Option<Json> {
    if pairs == [] then None
    else if pairs[|pairs| - 1].key == key then Some(pairs[|pairs| - 1].value)
    else LastOf(pairs[..|pairs| - 1], key)
  }

  lemma {:induction false} ObjectOfLooksUp(pairs: seq<Field>, key: string)
    ensures Occurrences(InsertAll(pairs), key) ==
            match LastOf(pairs, key) { case None => [] case Some(v) => [v] }
    ensures Get(ObjectOf(pairs), key) == LastOf(pairs, key)
  {
    if pairs != [] {
      var front := pairs[..|pairs| - 1];
      ObjectOfLooksUp(front, key);
      InsertAllIsSorted(front);
      InsertThenLookUp(InsertAll(front), pairs[|pairs| - 1], key);
    }
  }

  // ----- Values read from text --------------------------------------------------------

  /** A parsed tree as a value: objects become ordered maps all the way down. */
  function Normalize(v: Json): Json
    decreases v
  {
    match v
    case Arr(items) => Arr(seq(|items|, i requires 0 <= i < |items| => Normalize(items[i])))
    case Obj(fields) =>
      Obj(InsertAll(seq(|fields|, i requires 0 <= i < |fields| => Field(fields[i].key, Normalize(fields[i].value)))))
    case _ => v
  }

  predicate Canonical(v: Json)
    decreases v
  {
    match v
    case Arr(items) => forall i :: 0 <= i < |items| ==> Canonical(items[i])
    case Obj(fields) => Sorted(fields) && forall i :: 0 <= i < |fields| ==> Canonical(fields[i].value)
    case _ => true
  }

  lemma {:induction false} InsertAtEnd(fields: seq<Field>, f: Field)
    requires forall i :: 0 <= i < |fields| ==> Less(fields[i].key, f.key)
    ensures Insert(fields, f) == fields + [f]
  {
    if fields != [] {
      LessIsStrict(fields[0].key, f.key);
      InsertAtEnd(fields[1..], f);
    }
  }

  lemma {:induction false} SortedInsertsInPlace(fields: seq<Field>)
    requires Sorted(fields)
    ensures InsertAll(fields) == fields
  {
    if fields != [] {
      var front := fields[..|fields| - 1];
      SortedInsertsInPlace(front);
      InsertAtEnd(front, fields[|fields| - 1]);
    }
  }

  /** Values that are already ordered are left as they are. */
  lemma {:induction false} CanonicalIsFixed(v: Json)
    requires Canonical(v)
    ensures Normalize(v) == v
    decreases v
  {
    match v
    case Arr(items) =>
      forall i | 0 <= i < |items| { CanonicalIsFixed(items[i]); }
      assert Normalize(v).items == items;
    case Obj(fields) =>
      forall i | 0 <= i < |fields| { CanonicalIsFixed(fields[i].value); }
      assert seq(|fields|, i requires 0 <= i < |fields| => Field(fields[i].key, Normalize(fields[i].value))) == fields;
      SortedInsertsInPlace(fields);
    case _ =>
  }

  /** Text round trip of an ordered value. */
  lemma TextRoundTrip(v: Json)
    requires Canonical(v) && Printable(v, MAX_DEPTH)
    ensures Parse(Print(v)) == Some(v) && Normalize(v) == v
  {
    ParsePrint(v);
    CanonicalIsFixed(v);
  }
}
