/**
  The eleven PCB component classes. The label converter and the greedy
  evaluation each spell out the same `category_map` literal; the evaluation
  inverts it into `category_id_to_name`.
 */
module Categories {

  /** `category_map`, pair by pair in the dict's insertion order. */
  const Table: seq<(string, int)> := [
    ("Chip", 0), ("CSolder", 1), ("2sideIC", 2), ("SOD", 3), ("Circle", 4),
    ("4sideIC", 5), ("Tantalum", 6), ("BGA", 7), ("MELF", 8), ("Crystal", 9),
    ("Array", 10)
  ]

  /** The dict a list of pairs builds: a later pair overrides an earlier one with the same key. */
  function ToMap(t: seq<(string, int)>): map<string, int> {
    if t == [] then map[]
    else ToMap(t[..|t| - 1])[t[|t| - 1].0 := t[|t| - 1].1]
  }

  /** `{v: k for k, v in t}`: a later pair overrides an earlier one with the same value. */
  function Invert(t: seq<(string, int)>): map<int, string> {
    if t == [] then map[]
    else Invert(t[..|t| - 1])[t[|t| - 1].1 := t[|t| - 1].0]
  }

  /** The keys in insertion order, `category_map.keys()`. */
  function Names(t: seq<(string, int)>): seq<string> {
    if t == [] then [] else Names(t[..|t| - 1]) + [t[|t| - 1].0]
  }

  const CategoryMap: map<string, int> := ToMap(Table)
  const CategoryIdToName: map<int, string> := Invert(Table)
  const CategoryNames: seq<string> := Names(Table)

  predicate DistinctKeys(t: seq<(string, int)>) {
    forall i, j :: 0 <= i < j < |t| ==> t[i].0 != t[j].0
  }

  predicate DistinctValues(t: seq<(string, int)>) {
    forall i, j :: 0 <= i < j < |t| ==> t[i].1 != t[j].1
  }

  predicate NoDuplicates(s: seq<string>) {
    forall i, j :: 0 <= i < j < |s| ==> s[i] != s[j]
  }

  /** With distinct keys, the dict maps every listed key to its own value and has no other key. */
  lemma {:induction false} ToMapLookup(t: seq<(string, int)>)
    requires DistinctKeys(t)
    ensures forall i :: 0 <= i < |t| ==> t[i].0 in ToMap(t) && ToMap(t)[t[i].0] == t[i].1
    ensures forall k :: k in ToMap(t) ==> exists i :: 0 <= i < |t| && t[i].0 == k
  {
    if t != [] {
      ToMapLookup(t[..|t| - 1]);
      var m := ToMap(t);
      forall k | k in m ensures exists i :: 0 <= i < |t| && t[i].0 == k {
        if k != t[|t| - 1].0 {
          var i :| 0 <= i < |t| - 1 && t[..|t| - 1][i].0 == k;
          assert t[i].0 == k;
        }
      }
    }
  }

  /** With distinct values, the inversion maps every listed value back to its own key: nothing is lost. */
  lemma {:induction false} InvertLookup(t: seq<(string, int)>)
    requires DistinctValues(t)
    ensures forall i :: 0 <= i < |t| ==> t[i].1 in Invert(t) && Invert(t)[t[i].1] == t[i].0
    ensures forall v :: v in Invert(t) ==> exists i :: 0 <= i < |t| && t[i].1 == v
  {
    if t != [] {
      InvertLookup(t[..|t| - 1]);
      var m := Invert(t);
      forall v | v in m ensures exists i :: 0 <= i < |t| && t[i].1 == v {
        if v != t[|t| - 1].1 {
          var i :| 0 <= i < |t| - 1 && t[..|t| - 1][i].1 == v;
          assert t[i].1 == v;
        }
      }
    }
  }

  lemma {:induction false} NamesAreKeys(t: seq<(string, int)>)
    ensures |Names(t)| == |t|
    ensures forall i :: 0 <= i < |t| ==> Names(t)[i] == t[i].0
  {
    if t != [] {
      NamesAreKeys(t[..|t| - 1]);
    }
  }

  /** The literal's keys are distinct, and its values are distinct: they are 0 to 10 in order. */
  lemma TableIsBijective()
    ensures |Table| == 11
    ensures DistinctKeys(Table)
    ensures forall i :: 0 <= i < |Table| ==> Table[i].1 == i
    ensures DistinctValues(Table)
  {
  }

  /**
    `category_id_to_name` loses nothing: its keys are exactly 0..10, and it and
    `category_map` are inverse to each other.
   */
  lemma CategoryMapInverts()
    ensures forall id :: id in CategoryIdToName <==> 0 <= id <= 10
    ensures forall name :: name in CategoryMap ==>
      CategoryMap[name] in CategoryIdToName && CategoryIdToName[CategoryMap[name]] == name
    ensures forall id :: id in CategoryIdToName ==>
      CategoryIdToName[id] in CategoryMap && CategoryMap[CategoryIdToName[id]] == id
  {
    TableIsBijective();
    ToMapLookup(Table);
    InvertLookup(Table);
    forall id | 0 <= id <= 10 ensures id in CategoryIdToName {
      assert Table[id].1 == id;
    }
  }

  /**
    `category_map.keys()` lists eleven distinct names, every key of the map, and
    every name the inverted map can produce.
   */
  lemma CategoryNamesListKeys()
    ensures |CategoryNames| == 11 && NoDuplicates(CategoryNames)
    ensures forall name :: name in CategoryMap <==> name in CategoryNames
    ensures forall id :: id in CategoryIdToName ==> CategoryIdToName[id] in CategoryNames
  {
    TableIsBijective();
    ToMapLookup(Table);
    InvertLookup(Table);
    NamesAreKeys(Table);
    forall name | name in CategoryNames ensures name in CategoryMap {
      var i :| 0 <= i < |CategoryNames| && CategoryNames[i] == name;
      assert Table[i].0 == name;
    }
    forall name | name in CategoryMap ensures name in CategoryNames {
      var i :| 0 <= i < |Table| && Table[i].0 == name;
      assert CategoryNames[i] == name;
    }
    forall id | id in CategoryIdToName ensures CategoryIdToName[id] in CategoryNames {
      var i :| 0 <= i < |Table| && Table[i].1 == id;
      assert CategoryNames[i] == CategoryIdToName[id];
    }
  }
}
