/**
 Ordered string maps. A `std::map` is the sequence of its entries in strictly increasing key
 order, so equal maps are equal sequences and iterating a map is reading the sequence.
 */
module StringMaps {
  import opened ByteLayout

  datatype Entry = Entry(key: Bytes, value: Bytes)

  /** Lexicographic order of strings, as bytes. */
  predicate Less(a: Bytes, b: Bytes)
  {
    b != [] && (a == [] || a[0] < b[0] || (a[0] == b[0] && Less(a[1..], b[1..])))
  }

  lemma {:induction false} LessTransitive(a: Bytes, b: Bytes, c: Bytes)
    requires Less(a, b) && Less(b, c)
    ensures Less(a, c)
  {
    if a != [] && a[0] == b[0] && b[0] == c[0] {
      LessTransitive(a[1..], b[1..], c[1..]);
    }
  }

  lemma {:induction false} LessTotal(a: Bytes, b: Bytes)
    ensures a == b || Less(a, b) || Less(b, a)
    ensures Less(a, b) ==> a != b && !Less(b, a)
  {
    if a != [] && b != [] {
      LessTotal(a[1..], b[1..]);
      assert a == [a[0]] + a[1..] && b == [b[0]] + b[1..];
    }
  }

  /** The order of strings: a proper prefix comes first, and otherwise the first byte that differs
      decides. */
  lemma {:induction false} LessMeans(a: Bytes, b: Bytes, i: nat)
    requires i <= |a| && i <= |b| && a[..i] == b[..i]
    requires i == |a| || i == |b| || a[i] != b[i]
    ensures Less(a, b) <==> i < |b| && (i == |a| || a[i] < b[i])
  {
    if i > 0 {
      assert a[0] == a[..i][0] == b[..i][0] == b[0];
      assert a[1..][..i - 1] == a[..i][1..] && b[1..][..i - 1] == b[..i][1..];
      LessMeans(a[1..], b[1..], i - 1);
    }
  }

  /** Strictly increasing keys. */
  predicate Ordered(m: seq<Entry>)
  {
    forall i, j :: 0 <= i < j < |m| ==> Less(m[i].key, m[j].key)
  }

  type StringMap = m: seq<Entry> | Ordered(m)

  /** `emplace`: nothing when the key is already there. */
  function Emplace(m: StringMap, e: Entry): (r: Option<StringMap>)
    ensures r.Some? ==> forall x :: x in r.value <==> x in m || x == e
    decreases |m|
  {
    if m == [] then Some([e])
    else
      var last := m[|m| - 1];
      if last.key == e.key then None
      else if Less(last.key, e.key) then
        AppendOrdered(m, e);
        Some(m + [e])
      else
        var init := m[..|m| - 1];
        match Emplace(init, e)
        case None => None
        case Some(r) =>
          LessTotal(last.key, e.key);
          forall i | 0 <= i < |r|
            ensures Less(r[i].key, last.key)
          {
            assert r[i] in r;
          }
          assert m == init + [last];
          Some(r + [last])
  }

  lemma {:induction false} AppendOrdered(m: seq<Entry>, e: Entry)
    requires Ordered(m) && (m != [] ==> Less(m[|m| - 1].key, e.key))
    ensures Ordered(m + [e])
  {
    forall i | 0 <= i < |m|
      ensures Less(m[i].key, e.key)
    {
      if i < |m| - 1 {
        LessTransitive(m[i].key, m[|m| - 1].key, e.key);
      }
    }
  }

  /** Emplacing entries one after the other, from the front. */
  function EmplaceAll(m: StringMap, entries: seq<Entry>): Option<StringMap>
    decreases |entries|
  {
    if entries == [] then Some(m)
    else
      var next :- Emplace(m, entries[0]);
      EmplaceAll(next, entries[1..])
  }

  /** Entries that arrive in order are appended. */
  lemma {:induction false} EmplaceInOrder(m: StringMap, entries: seq<Entry>)
    requires Ordered(m + entries)
    ensures EmplaceAll(m, entries) == Some(m + entries)
    decreases |entries|
  {
    if entries == [] {
      assert m + entries == m;
    } else {
      var e := entries[0];
      assert (m + entries)[|m|] == e;
      assert m != [] ==> (m + entries)[|m| - 1] == m[|m| - 1];
      if m != [] {
        LessTotal(m[|m| - 1].key, e.key);
      }
      assert m + [e] + entries[1..] == m + entries;
      forall i, j | 0 <= i < j < |m + [e]|
        ensures Less((m + [e])[i].key, (m + [e])[j].key)
      {
        assert (m + entries)[i] == (m + [e])[i] && (m + entries)[j] == (m + [e])[j];
      }
      EmplaceInOrder(m + [e], entries[1..]);
    }
  }

  // What a map holds does not depend on the order its entries arrived in

  predicate HasKey(m: seq<Entry>, key: Bytes)
  {
    exists i :: 0 <= i < |m| && m[i].key == key
  }

  lemma {:induction false} EmplaceRefuses(m: StringMap, e: Entry)
    ensures Emplace(m, e).None? <==> HasKey(m, e.key)
    decreases |m|
  {
    if m != [] {
      var init, last := m[..|m| - 1], m[|m| - 1];
      EmplaceRefuses(init, e);
      LessTotal(last.key, e.key);
      if Less(last.key, e.key) {
        forall i | 0 <= i < |m|
          ensures m[i].key != e.key
        {
          if i < |m| - 1 {
            LessTransitive(m[i].key, last.key, e.key);
          }
          LessTotal(m[i].key, e.key);
        }
      } else if HasKey(m, e.key) && last.key != e.key {
        var i :| 0 <= i < |m| && m[i].key == e.key;
        assert init[i].key == e.key;
      }
    }
  }

  lemma {:induction false} EmplacedContents(m: StringMap, entries: seq<Entry>)
    ensures EmplaceAll(m, entries).Some? ==>
      forall x :: x in EmplaceAll(m, entries).value <==> x in m || x in entries
    decreases |entries|
  {
    if entries != [] && Emplace(m, entries[0]).Some? {
      EmplacedContents(Emplace(m, entries[0]).value, entries[1..]);
    }
  }

  /** Two maps with the same entries are equal. */
  lemma {:induction false} ContentsDetermineMap(a: StringMap, b: StringMap)
    requires forall x :: x in a <==> x in b
    ensures a == b
    decreases |a|
  {
    assert b == [] || b[0] in b;
    if a != [] {
      assert a[0] in b && b != [] && b[0] in a;
      FirstIsLeast(a, b[0]);
      FirstIsLeast(b, a[0]);
      LessTotal(a[0].key, b[0].key);
      forall x
        ensures x in a[1..] <==> x in b[1..]
      {
        RestWithoutFirst(a, x);
        RestWithoutFirst(b, x);
      }
      ContentsDetermineMap(a[1..], b[1..]);
      assert a == [a[0]] + a[1..] && b == [b[0]] + b[1..];
    }
  }

  lemma FirstIsLeast(m: StringMap, x: Entry)
    requires x in m
    ensures x == m[0] || Less(m[0].key, x.key)
  {
  }

  lemma RestWithoutFirst(m: StringMap, x: Entry)
    requires m != []
    ensures x in m[1..] <==> x in m && x != m[0]
  {
    forall i | 0 < i < |m|
      ensures m[i] != m[0]
    {
      LessTotal(m[0].key, m[i].key);
    }
  }

  /** Readers accept keys in any order: the same entries give the same map. */
  lemma AnyOrder(a: seq<Entry>, b: seq<Entry>)
    requires EmplaceAll([], a).Some? && EmplaceAll([], b).Some?
    requires forall x :: x in a <==> x in b
    ensures EmplaceAll([], a) == EmplaceAll([], b)
  {
    EmplacedContents([], a);
    EmplacedContents([], b);
    ContentsDetermineMap(EmplaceAll([], a).value, EmplaceAll([], b).value);
  }
}
