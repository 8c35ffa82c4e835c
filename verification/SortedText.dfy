/** Orders of texts: as listed, and by their bytes, which is how Go sorts strings. */
module SortedText {
  import opened Bytes

  /** Each name of a set once, in some order. */
  predicate Lists(order: seq<Text>, names: set<Text>) {
    && (forall k :: k in names ==> k in order) && (forall k :: k in order ==> k in names)
    && (forall i, j :: 0 <= i < j < |order| ==> order[i] != order[j])
  }

  predicate Before(a: Text, b: Text) {
    b != [] && (a == [] || a[0] < b[0] || (a[0] == b[0] && Before(a[1..], b[1..])))
  }

  predicate Ascending(names: seq<Text>) {
    forall i, j :: 0 <= i < j < |names| ==> Before(names[i], names[j])
  }

  lemma {:induction false} NotBefore(a: Text)
    ensures !Before(a, a)
  {
    if a != [] {
      NotBefore(a[1..]);
    }
  }

  lemma {:induction false} Transitive(a: Text, b: Text, c: Text)
    requires Before(a, b) && Before(b, c)
    ensures Before(a, c)
  {
    if a != [] && a[0] == b[0] == c[0] {
      Transitive(a[1..], b[1..], c[1..]);
    }
  }

  lemma {:induction false} OneWay(a: Text, b: Text)
    ensures a == b || Before(a, b) || Before(b, a)
  {
    if a != [] && b != [] && a[0] == b[0] {
      OneWay(a[1..], b[1..]);
      assert a == [a[0]] + a[1..] && b == [b[0]] + b[1..];
    }
  }

  // ---------- sorting ----------

  function Inserted(names: seq<Text>, name: Text): seq<Text> {
    if names == [] || Before(name, names[0]) then [name] + names else [names[0]] + Inserted(names[1..], name)
  }

  lemma {:induction false} InsertedMembers(names: seq<Text>, name: Text)
    ensures multiset(Inserted(names, name)) == multiset(names) + multiset{name}
    ensures forall k :: k in Inserted(names, name) <==> k in names || k == name
  {
    if names != [] {
      InsertedMembers(names[1..], name);
      assert names == [names[0]] + names[1..];
    }
    var sorted := Inserted(names, name);
    forall k ensures k in sorted <==> k in names || k == name {
      assert k in sorted <==> k in multiset(sorted);
    }
  }

  lemma AscendingRest(names: seq<Text>)
    requires Ascending(names) && names != []
    ensures Ascending(names[1..]) && forall k :: k in names[1..] ==> Before(names[0], k)
  {
    hide Before;
  }

  lemma AscendingFirst(first: Text, rest: seq<Text>)
    requires Ascending(rest) && forall k :: k in rest ==> Before(first, k)
    ensures Ascending([first] + rest)
  {
    hide Before;
    var names := [first] + rest;
    forall i, j | 0 <= i < j < |names| ensures Before(names[i], names[j]) {
      assert names[j] == rest[j - 1] && names[j] in rest;
    }
  }

  lemma {:induction false} InsertedAscends(names: seq<Text>, name: Text)
    requires Ascending(names) && name !in names
    ensures Ascending(Inserted(names, name))
  {
    hide Before, Ascending;
    if names == [] {
      AscendingOne(name);
    } else {
      AscendingRest(names);
      if Before(name, names[0]) {
        forall k | k in names ensures Before(name, k) {
          if k in names[1..] {
            Transitive(name, names[0], k);
          }
        }
        AscendingFirst(name, names);
      } else {
        OneWay(name, names[0]);
        InsertedAscends(names[1..], name);
        InsertedMembers(names[1..], name);
        AscendingFirst(names[0], Inserted(names[1..], name));
      }
    }
  }

  lemma AscendingOne(name: Text)
    ensures Ascending([]) && Ascending([name]) && [name] + [] == [name]
  {
  }

  /** Sorting: the same names in ascending order. */
  method SortStrings(names: seq<Text>) returns (sorted: seq<Text>)
    requires forall i, j :: 0 <= i < j < |names| ==> names[i] != names[j]
    ensures Ascending(sorted) && multiset(sorted) == multiset(names)
  {
    hide Ascending, Inserted;
    sorted := [];
    AscendingOne([]);
    var i := 0;
    while i < |names|
      invariant 0 <= i <= |names|
      invariant Ascending(sorted) && multiset(sorted) == multiset(names[..i])
    {
      assert names[..i + 1] == names[..i] + [names[i]];
      assert names[i] !in names[..i];
      assert names[i] !in multiset(sorted);
      InsertedAscends(sorted, names[i]);
      InsertedMembers(sorted, names[i]);
      sorted := Inserted(sorted, names[i]);
      i := i + 1;
    }
    assert names[..i] == names;
  }

  lemma SomeMember(s: seq<Text>)
    ensures s != [] ==> exists k :: k in s
  {
    if s != [] {
      assert s[0] in s;
    }
  }

  /** A set of names has only one ascending order. */
  lemma {:induction false} OneOrder(a: seq<Text>, b: seq<Text>)
    requires Ascending(a) && Ascending(b) && forall k :: k in a <==> k in b
    ensures a == b
    decreases |a|
  {
    hide Ascending, Before;
    if a == [] {
      SomeMember(b);
    } else {
      assert a[0] in b && b[0] in a;
      AscendingRest(a);
      AscendingRest(b);
      assert a == [a[0]] + a[1..] && b == [b[0]] + b[1..];
      if a[0] != b[0] {
        Transitive(a[0], b[0], a[0]);
        NotBefore(a[0]);
        assert false;
      }
      NotBefore(a[0]);
      forall k ensures k in a[1..] <==> k in b[1..] {
        assert k in a <==> k == a[0] || k in a[1..];
        assert k in b <==> k == b[0] || k in b[1..];
      }
      OneOrder(a[1..], b[1..]);
    }
  }

  ghost predicate Orders(sorted: seq<Text>, names: set<Text>) {
    Ascending(sorted) && forall k :: k in sorted <==> k in names
  }

  /** The names of a set in ascending order. */
  ghost function Sorted(names: set<Text>): (sorted: seq<Text>)
    ensures Orders(sorted, names)
  {
    HasOrder(names);
    var sorted :| Orders(sorted, names);
    sorted
  }

  lemma {:induction false} HasOrder(names: set<Text>)
    ensures exists sorted :: Orders(sorted, names)
    decreases |names|
  {
    hide Ascending, Inserted;
    if names == {} {
      AscendingOne([]);
      assert Orders([], names);
    } else {
      var k :| k in names;
      HasOrder(names - {k});
      var rest :| Orders(rest, names - {k});
      InsertedAscends(rest, k);
      InsertedMembers(rest, k);
      var sorted := Inserted(rest, k);
      assert Orders(sorted, names);
    }
  }
}
