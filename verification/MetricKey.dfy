/**
 Metric keys of the telemetry profile: the one-pass automaton and the split-and-check form
 accept the same keys.
 */
module MetricKey {
  import opened ByteLayout

  const MAX_KEY_BYTES := 128
  const DOT: byte := 46

  predicate Lowercase(c: byte)
  {
    'a' as int <= c <= 'z' as int
  }

  predicate KeyChar(c: byte)
  {
    Lowercase(c) || '0' as int <= c <= '9' as int || c == '_' as int
  }

  // The simple form

  /** The parts between the dots; one more than there are dots. */
  function Split(key: Bytes): (r: seq<Bytes>)
    ensures |r| > 0
  {
    if key == [] then [[]]
    else
      var rest := Split(key[1..]);
      if key[0] == DOT then [[]] + rest else [[key[0]] + rest[0]] + rest[1..]
  }

  predicate KeyChars(s: Bytes)
  {
    forall i :: 0 <= i < |s| ==> KeyChar(s[i])
  }

  predicate Segment(s: Bytes)
  {
    s != [] && Lowercase(s[0]) && KeyChars(s[1..])
  }

  predicate Segments(parts: seq<Bytes>)
  {
    forall i :: 0 <= i < |parts| ==> Segment(parts[i])
  }

  /** At least three segments, each a lowercase letter and then lowercase letters, digits or
      underscores; at most 128 bytes in all. */
  predicate WellFormed(key: Bytes)
  {
    key != [] && |key| <= MAX_KEY_BYTES && |Split(key)| >= 3 && Segments(Split(key))
  }

  function Join(parts: seq<Bytes>): Bytes
    requires parts != []
  {
    if |parts| == 1 then parts[0] else parts[0] + [46] + Join(parts[1..])
  }

  /** The parts are what stands between the dots, and nothing is lost. */
  lemma {:induction false} SplitJoins(key: Bytes)
    ensures Join(Split(key)) == key
    ensures forall i :: 0 <= i < |Split(key)| ==> 46 !in Split(key)[i]
  {
    if key != [] {
      var rest := Split(key[1..]);
      SplitJoins(key[1..]);
      assert key == [key[0]] + key[1..];
      if key[0] == 46 {
        assert Split(key)[1..] == rest;
      } else if |rest| == 1 {
        assert Split(key) == [[key[0]] + rest[0]];
      } else {
        assert Split(key)[1..] == rest[1..];
        assert [key[0]] + (rest[0] + [46] + Join(rest[1..]))
            == ([key[0]] + rest[0]) + [46] + Join(rest[1..]);
      }
    }
  }

  /** A small letter, and then small letters, digits and underscores. */
  predicate Word(s: Bytes)
  {
    && s != [] && 97 <= s[0] <= 122
    && forall i :: 1 <= i < |s| ==> 97 <= s[i] <= 122 || 48 <= s[i] <= 57 || s[i] == 95
  }

  /** Which keys are well formed, in numbers: at most 128 bytes and at least three words. */
  lemma WellFormedMeans(key: Bytes)
    ensures WellFormed(key) <==>
      && 1 <= |key| <= 128 && |Split(key)| >= 3
      && forall i :: 0 <= i < |Split(key)| ==> Word(Split(key)[i])
  {
    hide Split;
    forall s: Bytes
      ensures Segment(s) <==> Word(s)
    {
      if s != [] {
        var tail := s[1..];
        if KeyChars(tail) {
          assert forall i :: 1 <= i < |s| ==> s[i] == tail[i - 1];
        }
      }
    }
  }

  // The automaton

  /** What the loop decides on the rest of a key, from its two variables. */
  predicate Scan(rest: Bytes, segmentStart: bool, segmentCount: nat)
  {
    if rest == [] then !segmentStart && segmentCount >= 3
    else if rest[0] == DOT then !segmentStart && Scan(rest[1..], true, segmentCount + 1)
    else if segmentStart then Lowercase(rest[0]) && Scan(rest[1..], false, segmentCount)
    else KeyChar(rest[0]) && Scan(rest[1..], false, segmentCount)
  }

  lemma KeyCharsFront(c: byte, s: Bytes)
    ensures KeyChars([c] + s) <==> KeyChar(c) && KeyChars(s)
  {
    if KeyChars([c] + s) {
      forall i | 0 <= i < |s|
        ensures KeyChar(s[i])
      {
        assert s[i] == ([c] + s)[i + 1];
      }
      assert KeyChar(([c] + s)[0]);
    }
  }

  lemma SegmentsFront(s: Bytes, parts: seq<Bytes>)
    ensures Segments([s] + parts) <==> Segment(s) && Segments(parts)
  {
    hide Segment;
    if Segments([s] + parts) {
      forall i | 0 <= i < |parts|
        ensures Segment(parts[i])
      {
        assert parts[i] == ([s] + parts)[i + 1];
      }
      assert Segment(([s] + parts)[0]);
    }
  }

  /** The automaton's verdict on a rest is the simple check of the parts of that rest. */
  lemma {:induction false} ScanMeans(rest: Bytes, segmentStart: bool, segmentCount: nat)
    ensures
      var parts := Split(rest);
      Scan(rest, segmentStart, segmentCount) <==>
        && segmentCount + |parts| - 1 >= 3
        && (if segmentStart then Segment(parts[0]) else KeyChars(parts[0]))
        && Segments(parts[1..])
  {
    hide Segment, Segments, KeyChars;
    if rest == [] {
      EmptyParts();
    } else {
      var tail := Split(rest[1..]);
      EmptyParts();
      assert tail == [tail[0]] + tail[1..];
      if rest[0] == DOT {
        ScanMeans(rest[1..], true, segmentCount + 1);
        SegmentsFront(tail[0], tail[1..]);
        assert Split(rest)[1..] == tail;
      } else {
        ScanMeans(rest[1..], false, segmentCount);
        KeyCharsFront(rest[0], tail[0]);
        SegmentFront(rest[0], tail[0]);
        assert Split(rest)[1..] == tail[1..];
      }
    }
  }

  lemma SegmentFront(c: byte, s: Bytes)
    ensures Segment([c] + s) <==> Lowercase(c) && KeyChars(s)
  {
    assert ([c] + s)[1..] == s;
  }

  lemma EmptyParts()
    ensures KeyChars([]) && !Segment([]) && Segments([[]][1..])
  {
  }

  /** `valid_metric_key`: one pass over the bytes accepts exactly the well-formed keys. */
  method ValidMetricKey(key: Bytes) returns (ok: bool)
    ensures ok <==> WellFormed(key)
  {
    if key == [] || |key| > MAX_KEY_BYTES {
      return false;
    }
    ScanMeans(key, true, 1);
    SegmentsFront(Split(key)[0], Split(key)[1..]);
    assert Split(key) == [Split(key)[0]] + Split(key)[1..];
    assert key[0..] == key;
    var segmentCount, segmentStart := 1, true;
    for i := 0 to |key|
      invariant segmentCount >= 1
      invariant Scan(key[i..], segmentStart, segmentCount) == WellFormed(key)
    {
      var c := key[i];
      assert key[i..][1..] == key[i + 1..];
      if c == DOT {
        if segmentStart {
          return false;
        }
        segmentStart := true;
        segmentCount := segmentCount + 1;
        continue;
      }
      if segmentStart {
        if !Lowercase(c) {
          return false;
        }
        segmentStart := false;
        continue;
      }
      if !KeyChar(c) {
        return false;
      }
    }
    return !segmentStart && segmentCount >= 3;
  }
}
