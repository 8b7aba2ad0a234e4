/** The ordered map from group key to the values collected for it that
    aggregate builds (std::map<field_t, std::vector<field_t>>): a list of
    groups in strictly ascending key order. */
module Grouping {
  import opened Fields

  datatype Group = Group(key: Field, values: seq<Field>)

  /** Keys strictly ascend, so each key occurs once. */
  ghost predicate Sorted(g: seq<Group>)
  {
    forall i, j :: 0 <= i < j < |g| ==> Less(g[i].key, g[j].key)
  }

  /** Every group has received at least one value. */
  ghost predicate NonEmpty(g: seq<Group>)
  {
    forall i :: 0 <= i < |g| ==> |g[i].values| > 0
  }

  function Keys(g: seq<Group>): set<Field>
  {
    set i | 0 <= i < |g| :: g[i].key
  }

  /** The values of a key, or none for a key the map does not hold. */
  function Lookup(g: seq<Group>, k: Field): seq<Field>
  {
    if g == [] then []
    else if g[0].key == k then g[0].values
    else Lookup(g[1..], k)
  }

  /** groups[key].push_back(v): appends v to the values of key, creating the
      group in its place in key order when it is new. */
  function PushBack(g: seq<Group>, key: Field, v: Field): seq<Group>
  {
    if g == [] then [Group(key, [v])]
    else if g[0].key == key then [Group(key, g[0].values + [v])] + g[1..]
    else if Less(key, g[0].key) then [Group(key, [v])] + g
    else [g[0]] + PushBack(g[1..], key, v)
  }

  /** push_back adds key to the keys of the map. */
  lemma {:induction false} PushBackKeys(g: seq<Group>, key: Field, v: Field)
    ensures Keys(PushBack(g, key, v)) == Keys(g) + {key}
  {
    var r := PushBack(g, key, v);
    KeysOfTail(r);
    if g == [] {
      assert r[1..] == [];
    } else {
      if g[0].key == key {
        assert r[1..] == g[1..];
      } else if Less(key, g[0].key) {
        assert r[1..] == g;
      } else {
        PushBackKeys(g[1..], key, v);
        assert r[1..] == PushBack(g[1..], key, v);
      }
    }
  }

  /** push_back keeps the keys in ascending order. */
  lemma {:induction false} PushBackSorted(g: seq<Group>, key: Field, v: Field)
    requires Sorted(g)
    ensures Sorted(PushBack(g, key, v))
  {
    if g == [] {
    } else if g[0].key == key {
    } else if Less(key, g[0].key) {
      KeysBelow(g, key);
      SortedCons(Group(key, [v]), g);
    } else {
      Trichotomy(key, g[0].key);
      var rest := PushBack(g[1..], key, v);
      PushBackSorted(g[1..], key, v);
      PushBackKeys(g[1..], key, v);
      forall i | 0 <= i < |rest| ensures Less(g[0].key, rest[i].key) {
        var k := rest[i].key;
        assert k in Keys(rest);
        if k != key {
          var j :| 0 <= j < |g[1..]| && g[1..][j].key == k;
          assert g[j + 1].key == k;
        }
      }
      SortedCons(g[0], rest);
    }
  }

  lemma SortedCons(x: Group, rest: seq<Group>)
    requires Sorted(rest)
    requires forall i :: 0 <= i < |rest| ==> Less(x.key, rest[i].key)
    ensures Sorted([x] + rest)
  {
  }

  /** push_back appends v to the values of key and changes no other key. */
  lemma {:induction false} PushBackLookup(g: seq<Group>, key: Field, v: Field, k: Field)
    requires Sorted(g)
    ensures Lookup(PushBack(g, key, v), k) == if k == key then Lookup(g, k) + [v] else Lookup(g, k)
  {
    if g == [] {
    } else if g[0].key == key {
      if k != key {
        assert Lookup(PushBack(g, key, v), k) == Lookup(g[1..], k);
      } else {
        LookupOutside(g[1..], key);
      }
    } else if Less(key, g[0].key) {
      LookupBelow(g, key);
    } else {
      PushBackLookup(g[1..], key, v, k);
    }
  }

  /** push_back adds a group exactly when the key is new, and never empties one. */
  lemma {:induction false} PushBackSize(g: seq<Group>, key: Field, v: Field)
    requires Sorted(g)
    ensures |PushBack(g, key, v)| == |g| + (if key in Keys(g) then 0 else 1)
    ensures NonEmpty(g) ==> NonEmpty(PushBack(g, key, v))
  {
    if g == [] {
    } else if g[0].key == key {
      assert key in Keys(g);
    } else if Less(key, g[0].key) {
      LookupBelow(g, key);
    } else {
      KeysOfTail(g);
      PushBackSize(g[1..], key, v);
    }
  }

  lemma KeysOfTail(g: seq<Group>)
    requires g != []
    ensures Keys(g) == {g[0].key} + Keys(g[1..])
  {
    forall k | k in Keys(g) ensures k in {g[0].key} + Keys(g[1..]) {
      var i :| 0 <= i < |g| && g[i].key == k;
      if i > 0 {
        assert g[1..][i - 1].key == k;
      }
    }
  }

  /** A key above every key of the list is not in it. */
  lemma {:induction false} LookupOutside(g: seq<Group>, k: Field)
    requires Sorted(g) && forall i :: 0 <= i < |g| ==> Less(k, g[i].key)
    ensures Lookup(g, k) == [] && k !in Keys(g)
  {
    if g != [] {
      Trichotomy(k, g[0].key);
      LookupOutside(g[1..], k);
      KeysOfTail(g);
    }
  }

  /** A key below the first key of a sorted list is not in it. */
  lemma LookupBelow(g: seq<Group>, k: Field)
    requires Sorted(g) && g != [] && Less(k, g[0].key)
    ensures Lookup(g, k) == [] && k !in Keys(g)
  {
    forall i | 0 <= i < |g| ensures Less(k, g[i].key) {
      if i > 0 {
        LessTransitive(k, g[0].key, g[i].key);
      }
    }
    LookupOutside(g, k);
  }

  lemma KeysBelow(g: seq<Group>, k: Field)
    requires Sorted(g) && g != [] && Less(k, g[0].key)
    ensures forall i :: 0 <= i < |g| ==> Less(k, g[i].key)
  {
    forall i | 0 <= i < |g| ensures Less(k, g[i].key) {
      if i > 0 {
        LessTransitive(k, g[0].key, g[i].key);
      }
    }
  }

  /** The entry at position i is what Lookup finds for its key. */
  lemma {:induction false} LookupAt(g: seq<Group>, i: nat)
    requires Sorted(g) && i < |g|
    ensures Lookup(g, g[i].key) == g[i].values
  {
    if i > 0 {
      Trichotomy(g[0].key, g[i].key);
      LookupAt(g[1..], i - 1);
    }
  }

  /** A sorted map holds one group per key. */
  lemma {:induction false} SortedKeysCount(g: seq<Group>)
    requires Sorted(g)
    ensures |Keys(g)| == |g|
  {
    if g != [] {
      KeysOfTail(g);
      SortedKeysCount(g[1..]);
      if g[0].key in Keys(g[1..]) {
        var j :| 0 <= j < |g[1..]| && g[1..][j].key == g[0].key;
        assert Less(g[0].key, g[j + 1].key);
        Trichotomy(g[0].key, g[0].key);
        assert false;
      }
    }
  }
}
