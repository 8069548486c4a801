/**
 * The query string as the filter handles it: an ordered list of key/value
 * pairs (what `parse_str` makes of a query of plain, distinct keys),
 * removal of one key (`unset`), `http_build_query`, and the reading back of
 * a built query.
 */
module Query {
  import opened Wrappers
  import opened PhpStrings
  import opened UrlCodec

  datatype Param = Param(key: Bytes, value: Bytes)

  predicate HasKey(q: seq<Param>, k: Bytes)
  {
    exists i :: 0 <= i < |q| && q[i].key == k
  }

  /**
   * `unset($queryArr[k])`: the list without the entries for `k`, every
   * other entry kept in its original order.
   */
  function Without(q: seq<Param>, k: Bytes): (r: seq<Param>)
    ensures !HasKey(r, k)
    ensures |r| <= |q|
  {
    if q == [] then []
    else (if q[0].key == k then [] else [q[0]]) + Without(q[1..], k)
  }

  /** `unset` changes the list exactly when the key is present. */
  lemma {:induction false} WithoutChanges(q: seq<Param>, k: Bytes)
    ensures Without(q, k) != q <==> HasKey(q, k)
    decreases |q|
  {
    if HasKey(q, k) {
      WithoutShrinks(q, k);
    } else {
      WithoutAbsent(q, k);
    }
  }

  lemma {:induction false} WithoutShrinks(q: seq<Param>, k: Bytes)
    requires HasKey(q, k)
    ensures |Without(q, k)| < |q|
    decreases |q|
  {
    if q[0].key != k {
      var i :| 0 <= i < |q| && q[i].key == k;
      assert q[1..][i - 1].key == k;
      WithoutShrinks(q[1..], k);
    }
  }

  /** A pair survives `unset` exactly when it was there and has another key. */
  lemma {:induction false} WithoutMembers(q: seq<Param>, k: Bytes, p: Param)
    ensures p in Without(q, k) <==> p in q && p.key != k
    decreases |q|
  {
    if q != [] {
      WithoutMembers(q[1..], k, p);
      assert q == [q[0]] + q[1..];
    }
  }

  lemma {:induction false} WithoutConcat(a: seq<Param>, b: seq<Param>, k: Bytes)
    ensures Without(a + b, k) == Without(a, k) + Without(b, k)
    decreases |a|
  {
    if a == [] {
      assert a + b == b;
    } else {
      var head := if a[0].key == k then [] else [a[0]];
      assert (a + b)[0] == a[0];
      assert (a + b)[1..] == a[1..] + b;
      WithoutConcat(a[1..], b, k);
      calc {
        Without(a + b, k);
        head + Without(a[1..] + b, k);
        head + (Without(a[1..], k) + Without(b, k));
        (head + Without(a[1..], k)) + Without(b, k);
        Without(a, k) + Without(b, k);
      }
    }
  }

  lemma {:induction false} WithoutAbsent(q: seq<Param>, k: Bytes)
    requires !HasKey(q, k)
    ensures Without(q, k) == q
    decreases |q|
  {
    if q != [] {
      assert q[0].key != k;
      assert !HasKey(q[1..], k) by {
        forall i | 0 <= i < |q[1..]| ensures q[1..][i].key != k {
          assert q[1..][i] == q[i + 1];
        }
      }
      WithoutAbsent(q[1..], k);
    }
  }

  /**
   * On a PHP array, whose keys are distinct, `unset` removes exactly the
   * one entry with that key and leaves the others as they were, in order.
   */
  lemma UnsetEntry(before: seq<Param>, v: Bytes, after: seq<Param>, k: Bytes)
    requires !HasKey(before, k) && !HasKey(after, k)
    ensures Without(before + [Param(k, v)] + after, k) == before + after
  {
    var entry := [Param(k, v)];
    var front := before + entry;
    WithoutConcat(front, after, k);
    WithoutConcat(before, entry, k);
    WithoutAbsent(before, k);
    WithoutAbsent(after, k);
    WithoutOwnEntry(k, v);
    var wf := Without(front, k);
    assert wf == before + [];
    assert before + [] == before;
  }

  lemma WithoutOwnEntry(k: Bytes, v: Bytes)
    ensures Without([Param(k, v)], k) == []
  {
    assert [Param(k, v)][1..] == [];
  }

  /** Keys as `parse_str` keeps them: never empty. */
  predicate NonEmptyKeys(q: seq<Param>)
  {
    forall i :: 0 <= i < |q| ==> q[i].key != []
  }

  /** One `key=value` pair of `http_build_query`, both sides url-encoded. */
  function EncodePair(p: Param): (r: Bytes)
    ensures '&' !in r
  {
    UrlEncode(p.key) + "=" + UrlEncode(p.value)
  }

  /** `http_build_query($q)`: the encoded pairs joined by `&`. */
  function BuildQuery(q: seq<Param>): (r: Bytes)
    ensures q == [] <==> r == []
  {
    if q == [] then []
    else if |q| == 1 then EncodePair(q[0])
    else EncodePair(q[0]) + "&" + BuildQuery(q[1..])
  }

  /**
   * One `key[=value]` segment as `parse_str` reads it: both sides
   * url-decoded; an empty segment or an empty key yields nothing.
   */
  function ParseSegment(seg: Bytes): Option<Param>
  {
    if seg == [] then None
    else
      var j := IndexOf(seg, '=');
      var key := UrlDecode(seg[..j]);
      var value := if j < |seg| then UrlDecode(seg[j + 1..]) else [];
      if key == [] then None else Some(Param(key, value))
  }

  /** `parse_str($s)` on a query of plain keys: the segments between `&`, in order. */
  function ParseQuery(s: Bytes): seq<Param>
    decreases |s|
  {
    var i := IndexOf(s, '&');
    var seg := ParseSegment(s[..i]);
    (if seg.Some? then [seg.value] else []) + (if i < |s| then ParseQuery(s[i + 1..]) else [])
  }

  lemma ParseEncodedPair(p: Param)
    requires p.key != []
    ensures ParseSegment(EncodePair(p)) == Some(p)
  {
    var k := UrlEncode(p.key);
    var seg := EncodePair(p);
    assert '=' !in k by {
      forall i | 0 <= i < |k| ensures k[i] != '=' {
        assert IsEncodedByte(k[i]);
      }
    }
    IndexOfSplit(k, '=', UrlEncode(p.value));
    assert seg == k + ['='] + UrlEncode(p.value);
    assert seg[..|k|] == k;
    assert seg[|k| + 1..] == UrlEncode(p.value);
    DecodeEncode(p.key);
    DecodeEncode(p.value);
  }

  /** Reading a built query back gives the same pairs in the same order. */
  lemma {:induction false} ParseBuildQuery(q: seq<Param>)
    requires NonEmptyKeys(q)
    ensures ParseQuery(BuildQuery(q)) == q
    decreases |q|
  {
    var s := BuildQuery(q);
    if q == [] {
      assert IndexOf(s, '&') == 0;
    } else {
      var first := EncodePair(q[0]);
      ParseEncodedPair(q[0]);
      if |q| == 1 {
        IndexOfAbsent(first, '&');
        assert s[..|first|] == first;
      } else {
        var rest := BuildQuery(q[1..]);
        assert s == first + ['&'] + rest;
        IndexOfSplit(first, '&', rest);
        assert s[..|first|] == first;
        assert s[|first| + 1..] == rest;
        ParseBuildQuery(q[1..]);
      }
    }
  }

  /**
   * `parse_url` then `parse_str` on a request target: the path before the
   * first `?`, and the pairs of the query after it.
   */
  function ReadRequestTarget(t: Bytes): (Bytes, seq<Param>)
  {
    var i := IndexOf(t, '?');
    (t[..i], if i < |t| then ParseQuery(t[i + 1..]) else [])
  }
}
