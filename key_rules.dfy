/**
 * The key rules both key validators enforce, one object at a time: a blank
 * key is reported, and a key already seen earlier in the same object is
 * reported as a duplicate (`!seen.add(key)`), each key checked in order.
 */
module KeyRules {
  import opened Strings

  datatype KeyFinding = Blank | Duplicate(key: string)

  /** What checking `keys` in order reports, in the order reported. */
  function KeyFindings(keys: seq<string>): seq<KeyFinding>
    decreases |keys|
  {
    if |keys| == 0 then []
    else
      var earlier := keys[..|keys| - 1];
      var key := keys[|keys| - 1];
      KeyFindings(earlier)
        + (if IsBlank(key) then [Blank] else [])
        + (if key in earlier then [Duplicate(key)] else [])
  }

  /** Checking one more key appends what that key alone reports. */
  lemma KeyFindingsSnoc(keys: seq<string>, key: string)
    ensures KeyFindings(keys + [key]) ==
      KeyFindings(keys) + (if IsBlank(key) then [Blank] else []) + (if key in keys then [Duplicate(key)] else [])
  {
    assert (keys + [key])[..|keys|] == keys;
  }

  /** The distinct keys among `keys`: what `seen` holds once all of them are checked. */
  function KeySet(keys: seq<string>): set<string>
  {
    set x | x in keys
  }

  function CountBlank(keys: seq<string>): nat
    decreases |keys|
  {
    if |keys| == 0 then 0
    else CountBlank(keys[..|keys| - 1]) + (if IsBlank(keys[|keys| - 1]) then 1 else 0)
  }

  /** One report per blank key, plus one per key that repeats an earlier one. */
  lemma {:induction false} KeyFindingsCount(keys: seq<string>)
    ensures |KeyFindings(keys)| == CountBlank(keys) + |keys| - |KeySet(keys)|
    ensures |KeySet(keys)| <= |keys|
    decreases |keys|
  {
    if |keys| > 0 {
      var earlier := keys[..|keys| - 1];
      var key := keys[|keys| - 1];
      KeyFindingsCount(earlier);
      assert keys == earlier + [key];
      var before := KeySet(earlier);
      var after := KeySet(keys);
      assert after == before + {key};
      if key in earlier {
        assert key in before;
        assert after == before;
      } else {
        assert key !in before;
        assert |after| == |before| + 1;
      }
    }
  }

  predicate NoBlankKey(keys: seq<string>)
  {
    forall i :: 0 <= i < |keys| ==> !IsBlank(keys[i])
  }

  predicate DistinctKeys(keys: seq<string>)
  {
    forall i, j :: 0 <= i < j < |keys| ==> keys[i] != keys[j]
  }

  /** Distinct keys: as many in the set as in the list. */
  lemma {:induction false} DistinctKeySetSize(keys: seq<string>)
    requires DistinctKeys(keys)
    ensures |KeySet(keys)| == |keys|
    decreases |keys|
  {
    if |keys| > 0 {
      var earlier := keys[..|keys| - 1];
      var key := keys[|keys| - 1];
      assert DistinctKeys(earlier) by {
        forall i, j | 0 <= i < j < |earlier| ensures earlier[i] != earlier[j] {
          assert earlier[i] == keys[i] && earlier[j] == keys[j];
        }
      }
      DistinctKeySetSize(earlier);
      assert keys == earlier + [key];
      assert KeySet(keys) == KeySet(earlier) + {key};
      assert key !in KeySet(earlier) by {
        forall i | 0 <= i < |earlier| ensures earlier[i] != key {
          assert earlier[i] == keys[i];
        }
      }
    }
  }

  /** Nothing is reported exactly when no key is blank and no key repeats. */
  lemma {:induction false} KeyFindingsEmptyIff(keys: seq<string>)
    ensures KeyFindings(keys) == [] <==> NoBlankKey(keys) && DistinctKeys(keys)
    decreases |keys|
  {
    if |keys| > 0 {
      var earlier := keys[..|keys| - 1];
      var key := keys[|keys| - 1];
      KeyFindingsEmptyIff(earlier);
      assert keys == earlier + [key];
      if NoBlankKey(keys) && DistinctKeys(keys) {
        assert NoBlankKey(earlier) && DistinctKeys(earlier);
        assert !IsBlank(key);
        assert key !in earlier by {
          forall i | 0 <= i < |earlier|
            ensures earlier[i] != key
          {
            assert keys[i] == earlier[i];
          }
        }
      }
      if KeyFindings(keys) == [] {
        assert KeyFindings(earlier) == [];
        assert !IsBlank(key) && key !in earlier;
        forall i, j | 0 <= i < j < |keys|
          ensures keys[i] != keys[j]
        {
          if j < |keys| - 1 {
            assert keys[i] == earlier[i] && keys[j] == earlier[j];
          } else {
            assert keys[i] == earlier[i];
          }
        }
      }
    }
  }

  /** A key is reported as a duplicate exactly when it occurs at least twice. */
  lemma {:induction false} DuplicateReportedIff(keys: seq<string>, x: string)
    ensures Duplicate(x) in KeyFindings(keys) <==> exists i, j :: 0 <= i < j < |keys| && keys[i] == x && keys[j] == x
    decreases |keys|
  {
    if |keys| > 0 {
      var earlier := keys[..|keys| - 1];
      var key := keys[|keys| - 1];
      DuplicateReportedIff(earlier, x);
      assert keys == earlier + [key];
      if Duplicate(x) in KeyFindings(keys) {
        if Duplicate(x) in KeyFindings(earlier) {
          var i, j :| 0 <= i < j < |earlier| && earlier[i] == x && earlier[j] == x;
          assert keys[i] == x && keys[j] == x;
        } else {
          assert key == x && x in earlier;
          var i :| 0 <= i < |earlier| && earlier[i] == x;
          assert keys[i] == x && keys[|keys| - 1] == x;
        }
      }
      if exists i, j :: 0 <= i < j < |keys| && keys[i] == x && keys[j] == x {
        var i, j :| 0 <= i < j < |keys| && keys[i] == x && keys[j] == x;
        if j < |keys| - 1 {
          assert earlier[i] == x && earlier[j] == x;
        } else {
          assert earlier[i] == x;
          assert Duplicate(x) in KeyFindings(keys)[|KeyFindings(keys)| - 1..];
        }
      }
    }
  }

  /** The blank key and the repeated key of `"", "k", "k"` are both reported. */
  lemma BlankAndDuplicateExample()
    ensures KeyFindings(["", "k", "k"]) == [Blank, Duplicate("k")]
  {
    assert ["", "k", "k"][..2] == ["", "k"];
    assert ["", "k"][..1] == [""];
    assert ["", "k", "k"][2] in ["", "k"];
    assert !IsWhitespace("k"[0]);
    assert !IsBlank("k");
  }
}
