/** Names in the order the runtime's default `sort` puts them: by code unit, shorter first. */
module Names {
  predicate Precedes(a: string, b: string) {
    b != "" && (a == "" || a[0] < b[0] || (a[0] == b[0] && Precedes(a[1..], b[1..])))
  }

  /** After `k` characters that both begin with, `a` ends, or goes on with a smaller character than `b`. */
  predicate ComesFirst(a: string, b: string, k: nat) {
    k <= |a| && k < |b| && a[..k] == b[..k] && (k == |a| || a[k] < b[k])
  }

  lemma {:induction false} PrecedesExactly(a: string, b: string)
    ensures Precedes(a, b) <==> exists k: nat :: ComesFirst(a, b, k)
    decreases a
  {
    hide ComesFirst;
    if b == "" || a == "" || a[0] != b[0] {
      AtOnce(a, b);
      assert ComesFirst(a, b, 0) <==> Precedes(a, b);
    } else {
      PrecedesExactly(a[1..], b[1..]);
      forall k: nat ensures ComesFirst(a, b, k) <==> k > 0 && ComesFirst(a[1..], b[1..], k - 1) {
        Later(a, b, k);
      }
      if k: nat :| ComesFirst(a[1..], b[1..], k) {
        assert ComesFirst(a, b, k + 1);
      }
    }
  }

  lemma AtOnce(a: string, b: string)
    requires b == "" || a == "" || a[0] != b[0]
    ensures forall k: nat :: ComesFirst(a, b, k) <==> k == 0 && b != "" && (a == "" || a[0] < b[0])
  {
    forall k: nat | 0 < k <= |a| && k < |b| ensures a[..k] != b[..k] {
      assert a[..k][0] == a[0] && b[..k][0] == b[0];
    }
  }

  lemma Later(a: string, b: string, k: nat)
    requires a != "" && b != "" && a[0] == b[0]
    ensures ComesFirst(a, b, k) <==> k > 0 && ComesFirst(a[1..], b[1..], k - 1)
  {
    if 0 < k <= |a| && k < |b| {
      assert a[..k] == [a[0]] + a[1..][..k - 1] && b[..k] == [b[0]] + b[1..][..k - 1];
      assert a[..k][1..] == a[1..][..k - 1] && b[..k][1..] == b[1..][..k - 1];
    }
  }

  lemma {:induction false} Trichotomy(a: string, b: string)
    ensures Precedes(a, b) || a == b || Precedes(b, a)
    ensures !(Precedes(a, b) && Precedes(b, a)) && (a == b ==> !Precedes(a, b))
    decreases a
  {
    if a != "" && b != "" && a[0] == b[0] {
      Trichotomy(a[1..], b[1..]);
      assert a == [a[0]] + a[1..] && b == [b[0]] + b[1..];
    }
  }

  lemma {:induction false} Transitive(a: string, b: string, c: string)
    requires Precedes(a, b) && Precedes(b, c)
    ensures Precedes(a, c)
    decreases a
  {
    if a != "" && a[0] == b[0] && b[0] == c[0] {
      Transitive(a[1..], b[1..], c[1..]);
    }
  }

  ghost predicate Ascending(names: seq<string>) {
    forall i, j :: 0 <= i < j < |names| ==> Precedes(names[i], names[j])
  }

  function Insert(name: string, names: seq<string>): (r: seq<string>)
    ensures forall n :: n in r <==> n == name || n in names
  {
    if names == [] then [name]
    else if name == names[0] then names
    else if Precedes(name, names[0]) then [name] + names
    else [names[0]] + Insert(name, names[1..])
  }

  /** `Array.from(new Set(names)).sort()`. */
  function SortUnique(names: seq<string>): (r: seq<string>)
    ensures forall n :: n in r <==> n in names
  {
    if names == [] then [] else Insert(names[0], SortUnique(names[1..]))
  }

  lemma {:induction false} InsertAscending(name: string, names: seq<string>)
    requires Ascending(names)
    ensures Ascending(Insert(name, names))
    decreases names
  {
    hide Precedes;
    if names != [] && name != names[0] {
      Trichotomy(name, names[0]);
      if Precedes(name, names[0]) {
        forall j | 0 < j < |names| ensures Precedes(name, names[j]) {
          Transitive(name, names[0], names[j]);
        }
      } else {
        InsertAscending(name, names[1..]);
        var rest := Insert(name, names[1..]);
        forall j | 0 <= j < |rest| ensures Precedes(names[0], rest[j]) {
          assert rest[j] in rest;
        }
      }
    }
  }

  lemma {:induction false} SortUniqueAscending(names: seq<string>)
    ensures Ascending(SortUnique(names))
    decreases names
  {
    hide Precedes;
    if names != [] {
      SortUniqueAscending(names[1..]);
      InsertAscending(names[0], SortUnique(names[1..]));
    }
  }

  /** The order leaves no choice: two ascending lists of the same names are the same list. */
  lemma {:induction false} AscendingUnique(a: seq<string>, b: seq<string>)
    requires Ascending(a) && Ascending(b)
    requires forall n :: n in a <==> n in b
    ensures a == b
    decreases a
  {
    hide Precedes;
    assert b != [] ==> b[0] in a;
    if a != [] {
      assert a[0] in b;
      Heads(a, b);
      forall n ensures n in a[1..] <==> n in b[1..] {
        NotInTail(a, n);
        NotInTail(b, n);
      }
      AscendingUnique(a[1..], b[1..]);
      assert a == [a[0]] + a[1..] && b == [b[0]] + b[1..];
    }
  }

  lemma Heads(a: seq<string>, b: seq<string>)
    requires a != [] && b != [] && Ascending(a) && Ascending(b) && a[0] in b && b[0] in a
    ensures a[0] == b[0]
  {
    hide Precedes;
    var i :| 0 <= i < |b| && b[i] == a[0];
    var j :| 0 <= j < |a| && a[j] == b[0];
    Trichotomy(a[0], b[0]);
  }

  lemma NotInTail(a: seq<string>, n: string)
    requires a != [] && Ascending(a)
    ensures n in a[1..] <==> n in a && n != a[0]
  {
    hide Precedes;
    if n in a[1..] {
      var j :| 0 <= j < |a[1..]| && a[1..][j] == n;
      assert n == a[j + 1];
      Trichotomy(a[0], n);
    }
  }
}
