/**
 * The dictionary extensions UpdateTable applies to its name -> code dictionaries:
 * `GetAdded`, `GetUpdated`, `GetRemovedKeys` and `GetUpdatedKeys`. A dictionary is an
 * association list in insertion order, which is the order a freshly built dictionary
 * enumerates in.
 */
module Diff {
  import opened Wrappers
  import Seqs

  datatype Entry = Entry(key: string, code: string)

  function Keys(d: seq<Entry>): (r: seq<string>)
    ensures |r| == |d| && forall i :: 0 <= i < |d| ==> r[i] == d[i].key
  {
    seq(|d|, i requires 0 <= i < |d| => d[i].key)
  }

  function Codes(d: seq<Entry>): (r: seq<string>)
    ensures |r| == |d| && forall i :: 0 <= i < |d| ==> r[i] == d[i].code
  {
    seq(|d|, i requires 0 <= i < |d| => d[i].code)
  }

  /** `xs.ToDictionary(key, code)`, in the order of `xs`. */
  function ToDictionary<T>(xs: seq<T>, key: T -> string, code: T -> string): (d: seq<Entry>)
    ensures |d| == |xs| && forall i :: 0 <= i < |xs| ==> d[i] == Entry(key(xs[i]), code(xs[i]))
  {
    seq(|xs|, i requires 0 <= i < |xs| => Entry(key(xs[i]), code(xs[i])))
  }

  /** Adding one more element adds its entry at the end. */
  lemma ToDictionarySnoc<T>(xs: seq<T>, key: T -> string, code: T -> string, i: nat)
    requires i < |xs|
    ensures ToDictionary(xs[..i + 1], key, code) == ToDictionary(xs[..i], key, code) + [Entry(key(xs[i]), code(xs[i]))]
  {
  }

  /** A dictionary: `ToDictionary` refuses duplicate keys. */
  predicate UniqueKeys(d: seq<Entry>)
  {
    Seqs.Distinct(Keys(d))
  }

  /** The code stored under a key. */
  function Lookup(d: seq<Entry>, k: string): (r: Option<string>)
    ensures r.None? <==> k !in Keys(d)
    ensures r.Some? ==> Entry(k, r.value) in d
  {
    if d == [] then None
    else if d[0].key == k then Some(d[0].code)
    else
      assert Keys(d[1..]) == Keys(d)[1..];
      Lookup(d[1..], k)
  }

  predicate IsAdded(before: seq<Entry>, e: Entry)
  {
    Lookup(before, e.key).None?
  }

  predicate IsUpdated(before: seq<Entry>, e: Entry)
  {
    Lookup(before, e.key).Some? && Lookup(before, e.key).value != e.code
  }

  predicate IsRemoved(after: seq<Entry>, e: Entry)
  {
    Lookup(after, e.key).None?
  }

  function AddedEntries(before: seq<Entry>, after: seq<Entry>): seq<Entry>
  {
    Seqs.Where(after, (e: Entry) => IsAdded(before, e))
  }

  function UpdatedEntries(before: seq<Entry>, after: seq<Entry>): seq<Entry>
  {
    Seqs.Where(after, (e: Entry) => IsUpdated(before, e))
  }

  function RemovedEntries(before: seq<Entry>, after: seq<Entry>): seq<Entry>
  {
    Seqs.Where(before, (e: Entry) => IsRemoved(after, e))
  }

  /** The codes of the entries whose key is new, in the new dictionary's order. */
  function GetAdded(before: seq<Entry>, after: seq<Entry>): seq<string>
  {
    Codes(AddedEntries(before, after))
  }

  /** The new codes of the keys present in both whose code changed, in the new order. */
  function GetUpdated(before: seq<Entry>, after: seq<Entry>): seq<string>
  {
    Codes(UpdatedEntries(before, after))
  }

  /** The keys only the old dictionary has, in the old order. */
  function GetRemovedKeys(before: seq<Entry>, after: seq<Entry>): seq<string>
  {
    Keys(RemovedEntries(before, after))
  }

  /** The keys GetUpdated reports, in the same order. */
  function GetUpdatedKeys(before: seq<Entry>, after: seq<Entry>): seq<string>
  {
    Keys(UpdatedEntries(before, after))
  }

  /** Nothing changed between the two dictionaries. */
  predicate NoChanges(before: seq<Entry>, after: seq<Entry>)
  {
    GetAdded(before, after) == [] && GetUpdated(before, after) == [] && GetRemovedKeys(before, after) == []
  }

  /**
   * Every key of either dictionary is classified exactly once: added (only the new one has it),
   * removed (only the old one has it), updated (both, codes differ) or unchanged (both, same code).
   */
  lemma Classification(before: seq<Entry>, after: seq<Entry>, k: string)
    requires UniqueKeys(before) && UniqueKeys(after)
    ensures k in Keys(AddedEntries(before, after)) <==> k in Keys(after) && k !in Keys(before)
    ensures k in GetRemovedKeys(before, after) <==> k in Keys(before) && k !in Keys(after)
    ensures k in GetUpdatedKeys(before, after) <==>
      k in Keys(before) && k in Keys(after) && Lookup(before, k) != Lookup(after, k)
  {
    KeysMember(after);
    KeysMember(before);
    KeysMember(AddedEntries(before, after));
    KeysMember(RemovedEntries(before, after));
    KeysMember(UpdatedEntries(before, after));
    forall e | e in after ensures Lookup(after, e.key) == Some(e.code) {
      LookupUnique(after, e);
    }
  }

  lemma KeysMember(d: seq<Entry>)
    ensures forall k :: k in Keys(d) <==> exists e :: e in d && e.key == k
  {
    forall k | k in Keys(d) ensures exists e :: e in d && e.key == k {
      var i :| 0 <= i < |d| && Keys(d)[i] == k;
      assert d[i] in d;
    }
    forall e | e in d ensures e.key in Keys(d) {
      KeyOfMember(d, e);
    }
  }

  lemma KeyOfMember(d: seq<Entry>, e: Entry)
    requires e in d
    ensures e.key in Keys(d)
  {
    var i :| 0 <= i < |d| && d[i] == e;
    assert Keys(d)[i] == e.key;
  }

  /** In a dictionary, the entry of a key is the one Lookup finds. */
  lemma {:induction false} LookupUnique(d: seq<Entry>, e: Entry)
    requires UniqueKeys(d) && e in d
    ensures Lookup(d, e.key) == Some(e.code)
  {
    if d[0] != e {
      assert d[0].key != e.key by {
        var i :| 0 <= i < |d| && d[i] == e;
        assert Keys(d)[0] == d[0].key && Keys(d)[i] == e.key;
      }
      assert UniqueKeys(d[1..]) by {
        forall a, b | 0 <= a < b < |d[1..]| ensures Keys(d[1..])[a] != Keys(d[1..])[b] {
          assert Keys(d)[a + 1] != Keys(d)[b + 1];
        }
      }
      LookupUnique(d[1..], e);
    }
  }

  /** A dictionary compared with itself shows no additions, updates or removals. */
  lemma SelfDiff(d: seq<Entry>)
    requires UniqueKeys(d)
    ensures GetAdded(d, d) == [] && GetUpdated(d, d) == [] && GetRemovedKeys(d, d) == []
    ensures GetUpdatedKeys(d, d) == []
  {
    forall e | e in d ensures !IsUpdated(d, e) && !IsAdded(d, e) {
      LookupUnique(d, e);
    }
    assert AddedEntries(d, d) == [] by { NoneSelected(d, (e: Entry) => IsAdded(d, e)); }
    assert UpdatedEntries(d, d) == [] by { NoneSelected(d, (e: Entry) => IsUpdated(d, e)); }
    assert RemovedEntries(d, d) == [] by { NoneSelected(d, (e: Entry) => IsRemoved(d, e)); }
  }

  lemma NoneSelected(d: seq<Entry>, p: Entry -> bool)
    requires forall e :: e in d ==> !p(e)
    ensures Seqs.Where(d, p) == []
  {
  }

  /**
   * The reported keys keep dictionary order and are distinct: removed keys in the old
   * order, added and updated entries in the new order.
   */
  lemma DiffOrder(before: seq<Entry>, after: seq<Entry>)
    requires UniqueKeys(before) && UniqueKeys(after)
    ensures Seqs.IsSubsequence(RemovedEntries(before, after), before)
    ensures Seqs.IsSubsequence(AddedEntries(before, after), after)
    ensures Seqs.IsSubsequence(UpdatedEntries(before, after), after)
    ensures Seqs.Distinct(GetRemovedKeys(before, after)) && Seqs.Distinct(GetUpdatedKeys(before, after))
  {
    Seqs.WhereIsSubsequence(before, (e: Entry) => IsRemoved(after, e));
    Seqs.WhereIsSubsequence(after, (e: Entry) => IsAdded(before, e));
    Seqs.WhereIsSubsequence(after, (e: Entry) => IsUpdated(before, e));
    KeysOfSubsequence(RemovedEntries(before, after), before);
    KeysOfSubsequence(UpdatedEntries(before, after), after);
  }

  lemma {:induction false} KeysOfSubsequence(a: seq<Entry>, b: seq<Entry>)
    requires Seqs.IsSubsequence(a, b) && UniqueKeys(b)
    ensures UniqueKeys(a)
    decreases |b|
  {
    if a != [] {
      assert UniqueKeys(b[1..]) by {
        forall i, j | 0 <= i < j < |b[1..]| ensures Keys(b[1..])[i] != Keys(b[1..])[j] {
          assert Keys(b)[i + 1] != Keys(b)[j + 1];
        }
      }
      if a[0] == b[0] && Seqs.IsSubsequence(a[1..], b[1..]) {
        KeysOfSubsequence(a[1..], b[1..]);
        Seqs.SubsequenceDistinct(a[1..], b[1..]);
        forall j | 0 < j < |a| ensures a[0].key != a[j].key {
          assert a[j] in b[1..];
          var m :| 0 <= m < |b[1..]| && b[1..][m] == a[j];
          assert Keys(b)[0] != Keys(b)[m + 1];
        }
        forall i, j | 0 <= i < j < |a| ensures Keys(a)[i] != Keys(a)[j] {
          if i > 0 {
            assert Keys(a[1..])[i - 1] != Keys(a[1..])[j - 1];
          }
        }
      } else {
        KeysOfSubsequence(a, b[1..]);
      }
    }
  }

  /** Against an empty dictionary every entry is removed, in order. */
  lemma {:induction false} RemovedAgainstEmpty(d: seq<Entry>)
    ensures RemovedEntries(d, []) == d
  {
    if d != [] {
      RemovedAgainstEmpty(d[1..]);
    }
  }
}
