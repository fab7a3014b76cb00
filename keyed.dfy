/**
 * The collection operations the stores are built from. A MongoDB collection is a
 * sequence of records in insertion order; a filter on one field is equality of a
 * key function with a search key; FirstOrDefault, FindOneAndDelete and
 * UpdateOne/ReplaceOne all act on the first record that matches.
 */
module Keyed {
  import opened Wrappers

  /** Position of the first record whose key is k, or None when no record has it. */
  function IndexOf<T, K(==)>(s: seq<T>, key: T -> K, k: K): (r: Option<nat>)
    ensures r.Some? ==> r.value < |s| && key(s[r.value]) == k
    ensures r.Some? ==> forall j :: 0 <= j < r.value ==> key(s[j]) != k
    ensures r.None? <==> forall j :: 0 <= j < |s| ==> key(s[j]) != k
    decreases |s|
  {
    if |s| == 0 then None
    else if key(s[0]) == k then Some(0)
    else match IndexOf(s[1..], key, k)
      case None => None
      case Some(i) => Some(i + 1)
  }

  /** x is the record at the first position of s whose key is k. */
  ghost predicate IsFirstMatch<T, K>(s: seq<T>, key: T -> K, k: K, x: T)
  {
    exists i :: 0 <= i < |s| && s[i] == x && key(x) == k
      && forall j :: 0 <= j < i ==> key(s[j]) != k
  }

  /** Find(filter).FirstOrDefault(): the first record whose key is k. */
  function Find<T, K(==)>(s: seq<T>, key: T -> K, k: K): (r: Option<T>)
    ensures r.Some? ==> r.value in s && key(r.value) == k
    ensures r.Some? ==> IsFirstMatch(s, key, k, r.value)
    ensures r.None? <==> forall x :: x in s ==> key(x) != k
  {
    match IndexOf(s, key, k)
    case None => None
    case Some(i) => Some(s[i])
  }

  /** The sequence without its i-th record, the others keeping their order. */
  function RemoveAt<T>(s: seq<T>, i: nat): (r: seq<T>)
    requires i < |s|
    ensures |r| == |s| - 1
    ensures multiset(r) + multiset{s[i]} == multiset(s)
    ensures forall j :: 0 <= j < i ==> r[j] == s[j]
    ensures forall j :: i <= j < |r| ==> r[j] == s[j + 1]
  {
    assert s == s[..i] + [s[i]] + s[i + 1..];
    s[..i] + s[i + 1..]
  }

  /** ReplaceOne: the first record whose key is k is replaced by x; no match, no change. */
  function ReplaceFirst<T, K(==)>(s: seq<T>, key: T -> K, k: K, x: T): (r: seq<T>)
    ensures |r| == |s|
    ensures IndexOf(s, key, k).None? ==> r == s
    ensures IndexOf(s, key, k).Some? ==> r == s[IndexOf(s, key, k).value := x]
  {
    match IndexOf(s, key, k)
    case None => s
    case Some(i) => s[i := x]
  }

  /** The keys of the records, in order. */
  function KeysOf<T, K>(s: seq<T>, key: T -> K): (r: seq<K>)
    ensures |r| == |s|
    ensures forall i :: 0 <= i < |s| ==> r[i] == key(s[i])
  {
    seq(|s|, i requires 0 <= i < |s| => key(s[i]))
  }

  /** How many records have key k: the multiplicity of k among the keys. */
  function CountKey<T, K(==)>(s: seq<T>, key: T -> K, k: K): (n: nat)
    ensures n <= |s|
    ensures n == multiset(KeysOf(s, key))[k]
    ensures n == 0 <==> IndexOf(s, key, k).None?
    decreases |s|
  {
    if |s| == 0 then 0
    else
      assert KeysOf(s, key) == [key(s[0])] + KeysOf(s[1..], key);
      (if key(s[0]) == k then 1 else 0) + CountKey(s[1..], key, k)
  }

  /**
   * Where a database call inside a try/catch that returns false throws:
   * not at all, in FindOneAndDelete (nothing has changed yet), or in the
   * InsertOne that follows it (the record is already gone from its source).
   */
  datatype Fault = NoFault | TakeFails | InsertFails

  /** The two collections after a transfer, and what the operation returned. */
  datatype Moved<T> = Moved(source: seq<T>, target: seq<T>, ok: bool)

  /**
   * FindOneAndDelete(key == k) on source, then, when a record came back,
   * InsertOne of that record into target; the whole inside a try/catch.
   */
  function Transfer<T, K(==)>(source: seq<T>, target: seq<T>, key: T -> K, k: K, fault: Fault): (m: Moved<T>)
    ensures m.ok <==> fault == NoFault && exists i :: 0 <= i < |source| && key(source[i]) == k
    ensures !m.ok && fault != InsertFails ==> m.source == source && m.target == target
    ensures fault == InsertFails ==> m.target == target
    ensures (forall i :: 0 <= i < |source| ==> key(source[i]) != k) ==> m.source == source && m.target == target
    ensures m.ok ==> exists i :: (0 <= i < |source| && IsFirstMatch(source, key, k, source[i])
      && m.source == RemoveAt(source, i) && m.target == target + [source[i]])
  {
    if fault == TakeFails then Moved(source, target, false)
    else match IndexOf(source, key, k)
      case None => Moved(source, target, false)
      case Some(i) =>
        if fault == InsertFails then Moved(RemoveAt(source, i), target, false)
        else
          assert fault == NoFault && 0 <= i < |source| && key(source[i]) == k;
          Moved(RemoveAt(source, i), target + [source[i]], true)
  }

  /**
   * A successful transfer moves the first record with key k: it leaves the source
   * and is appended to the target, and no record is created or lost.
   */
  lemma TransferMovesFirstMatch<T, K>(source: seq<T>, target: seq<T>, key: T -> K, k: K)
    requires Transfer(source, target, key, k, NoFault).ok
    ensures var m := Transfer(source, target, key, k, NoFault);
      exists i :: 0 <= i < |source| && key(source[i]) == k
        && (forall j :: 0 <= j < i ==> key(source[j]) != k)
        && m.source == RemoveAt(source, i)
        && m.target == target + [source[i]]
    ensures var m := Transfer(source, target, key, k, NoFault);
      multiset(m.source) + multiset(m.target) == multiset(source) + multiset(target)
      && |m.source| + |m.target| == |source| + |target|
  {
    var i := IndexOf(source, key, k).value;
    var m := Transfer(source, target, key, k, NoFault);
    assert m.source == RemoveAt(source, i) && m.target == target + [source[i]];
  }

  /**
   * An InsertOne that throws after FindOneAndDelete loses the record: it is in
   * neither collection afterwards, and the operation reports false.
   */
  lemma TransferInsertFailureLosesRecord<T, K>(source: seq<T>, target: seq<T>, key: T -> K, k: K)
    requires exists i :: 0 <= i < |source| && key(source[i]) == k
    ensures var m := Transfer(source, target, key, k, InsertFails);
      !m.ok && m.target == target && |m.source| + |m.target| == |source| + |target| - 1
      && CountKey(m.source, key, k) == CountKey(source, key, k) - 1
  {
    var i := IndexOf(source, key, k).value;
    CountKeyRemoveAt(source, key, k, i);
  }

  /** Removing a record with key k removes exactly one of the records with that key. */
  lemma {:induction false} CountKeyRemoveAt<T, K>(s: seq<T>, key: T -> K, k: K, i: nat)
    requires i < |s| && key(s[i]) == k
    ensures CountKey(RemoveAt(s, i), key, k) == CountKey(s, key, k) - 1
    decreases |s|
  {
    if i == 0 {
      assert RemoveAt(s, 0) == s[1..];
    } else {
      assert RemoveAt(s, i)[0] == s[0];
      assert RemoveAt(s, i)[1..] == RemoveAt(s[1..], i - 1);
      CountKeyRemoveAt(s[1..], key, k, i - 1);
    }
  }

  /** After a successful transfer the source holds one record with key k fewer, the target one more. */
  lemma TransferShiftsOneMatch<T, K>(source: seq<T>, target: seq<T>, key: T -> K, k: K)
    requires Transfer(source, target, key, k, NoFault).ok
    ensures var m := Transfer(source, target, key, k, NoFault);
      CountKey(m.source, key, k) == CountKey(source, key, k) - 1
      && CountKey(m.target, key, k) == CountKey(target, key, k) + 1
  {
    var i := IndexOf(source, key, k).value;
    CountKeyRemoveAt(source, key, k, i);
    CountKeyAppend(target, key, source[i], k);
  }

  /** Appending one record adds one to the count of its key and nothing to the others. */
  lemma {:induction false} CountKeyAppend<T, K>(s: seq<T>, key: T -> K, x: T, k: K)
    ensures CountKey(s + [x], key, k) == CountKey(s, key, k) + (if key(x) == k then 1 else 0)
    decreases |s|
  {
    if |s| == 0 {
      assert [x][1..] == [];
    } else {
      assert (s + [x])[1..] == s[1..] + [x];
      CountKeyAppend(s[1..], key, x, k);
    }
  }

  /**
   * Transferring back undoes a transfer: when the target held no record with
   * key k, moving k from the target to the source returns the moved record to
   * the source (appended at the end, so the same records though not the same
   * order) and restores the target exactly.
   */
  lemma TransferRoundTrip<T, K>(source: seq<T>, target: seq<T>, key: T -> K, k: K)
    requires Transfer(source, target, key, k, NoFault).ok
    requires forall j :: 0 <= j < |target| ==> key(target[j]) != k
    ensures var m := Transfer(source, target, key, k, NoFault);
      var back := Transfer(m.target, m.source, key, k, NoFault);
      back.ok && back.source == target && multiset(back.target) == multiset(source)
  {
    var i := IndexOf(source, key, k).value;
    var m := Transfer(source, target, key, k, NoFault);
    assert m.target == target + [source[i]];
    IndexOfPastMisses(target, key, k, source[i]);
    assert RemoveAt(m.target, |target|) == target;
  }

  /** Appending a record with key k to a sequence that has none puts the first match at the end. */
  lemma IndexOfPastMisses<T, K>(s: seq<T>, key: T -> K, k: K, x: T)
    requires forall j :: 0 <= j < |s| ==> key(s[j]) != k
    requires key(x) == k
    ensures IndexOf(s + [x], key, k) == Some(|s|)
  {
    var r := IndexOf(s + [x], key, k);
    assert key((s + [x])[|s|]) == k;
    assert r.Some?;
  }

  /** Replacing a record by one with the same key does not move the first match. */
  lemma {:induction false} IndexOfSameKeyUpdate<T, K>(s: seq<T>, key: T -> K, k: K, i: nat, x: T)
    requires i < |s| && key(x) == key(s[i])
    ensures IndexOf(s[i := x], key, k) == IndexOf(s, key, k)
    decreases |s|
  {
    if i > 0 {
      assert s[i := x][1..] == s[1..][i - 1 := x];
      IndexOfSameKeyUpdate(s[1..], key, k, i - 1, x);
    }
  }

  /** After appending a record with key k some record with key k is always found. */
  lemma FindAfterAppend<T, K>(s: seq<T>, key: T -> K, x: T)
    ensures Find(s + [x], key, key(x)).Some?
  {
    assert x in s + [x];
  }
}
