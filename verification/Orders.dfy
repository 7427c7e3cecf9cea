/** Strict total orders and the ordered enumeration of a finite set.

    The program keeps its state in ordered maps and ordered sets, so a loop over one visits the keys
    in increasing order. `Enumerate` is that visiting order. */
module Orders {

  ghost predicate StrictTotal<T(!new)>(less: (T, T) -> bool) {
    && (forall a :: !less(a, a))
    && (forall a, b :: a != b ==> less(a, b) || less(b, a))
    && (forall a, b, c :: less(a, b) && less(b, c) ==> less(a, c))
  }

  ghost predicate Increasing<T>(less: (T, T) -> bool, s: seq<T>) {
    forall i, j | 0 <= i < j < |s| :: less(s[i], s[j])
  }

  predicate NoDuplicates<T(==)>(s: seq<T>) {
    forall i, j | 0 <= i < j < |s| :: s[i] != s[j]
  }

  lemma {:induction false} LeastExists<T(!new)>(less: (T, T) -> bool, s: set<T>)
    requires StrictTotal(less) && s != {}
    ensures exists x :: x in s && forall y | y in s :: y == x || less(x, y)
  {
    var a :| a in s;
    if s != {a} {
      var rest := s - {a};
      assert s == rest + {a};
      LeastExists(less, rest);
      var x :| x in rest && forall y | y in rest :: y == x || less(x, y);
      var m := if less(a, x) then a else x;
      assert m in s;
      forall y | y in s ensures y == m || less(m, y) {
        assert y == a || y in rest;
      }
    }
  }

  /** The first key an ordered map or set would hand out. */
  function Least<T(==, !new)>(less: (T, T) -> bool, s: set<T>): (x: T)
    requires StrictTotal(less) && s != {}
    ensures x in s && forall y | y in s :: y == x || less(x, y)
  {
    LeastExists(less, s);
    var x :| x in s && forall y | y in s :: y == x || less(x, y);
    x
  }

  function Enumerate<T(==, !new)>(less: (T, T) -> bool, s: set<T>): (r: seq<T>)
    requires StrictTotal(less)
    ensures forall x :: x in r <==> x in s
    ensures Increasing(less, r)
    ensures NoDuplicates(r)
    ensures |r| == |s|
    decreases |s|
  {
    if s == {} then []
    else
      var x := Least(less, s);
      [x] + Enumerate(less, s - {x})
  }

  /** Byte order on ASCII identifiers. */
  predicate StringLess(a: string, b: string) {
    b != [] && (a == [] || a[0] < b[0] || (a[0] == b[0] && StringLess(a[1..], b[1..])))
  }

  lemma {:induction false} StringLessIrreflexive(a: string)
    ensures !StringLess(a, a)
  {
    if a != [] { StringLessIrreflexive(a[1..]); }
  }

  lemma {:induction false} StringLessTotal(a: string, b: string)
    requires a != b
    ensures StringLess(a, b) || StringLess(b, a)
  {
    if a != [] && b != [] && a[0] == b[0] {
      assert a == [a[0]] + a[1..] && b == [b[0]] + b[1..];
      StringLessTotal(a[1..], b[1..]);
    }
  }

  lemma {:induction false} StringLessTransitive(a: string, b: string, c: string)
    requires StringLess(a, b) && StringLess(b, c)
    ensures StringLess(a, c)
  {
    if a != [] && a[0] == b[0] == c[0] {
      StringLessTransitive(a[1..], b[1..], c[1..]);
    }
  }

  lemma StringOrder()
    ensures StrictTotal(StringLess)
  {
    forall a: string ensures !StringLess(a, a) { StringLessIrreflexive(a); }
    forall a: string, b: string | a != b ensures StringLess(a, b) || StringLess(b, a) { StringLessTotal(a, b); }
    forall a: string, b: string, c: string | StringLess(a, b) && StringLess(b, c) ensures StringLess(a, c) {
      StringLessTransitive(a, b, c);
    }
  }

  /** The keys of an ordered map, in the order a loop over it visits them. */
  function SortedNames(s: set<string>): (r: seq<string>)
    ensures forall x :: x in r <==> x in s
    ensures Increasing(StringLess, r)
    ensures NoDuplicates(r)
    ensures |r| == |s|
  {
    StringOrder();
    Enumerate(StringLess, s)
  }

  /** Parsed identifiers, and hexadecimal SHA-256 digests: 1 to 64 small letters, digits, hyphens and underscores. */
  type Identifier = s: string | 0 < |s| <= 64 && forall i | 0 <= i < |s| :: IdentifierChar(s[i]) witness "a"

  predicate IdentifierChar(c: char) {
    'a' <= c <= 'z' || '0' <= c <= '9' || c == '-' || c == '_'
  }

  /** A name inside one workspace of one tenant; ordered field by field. */
  datatype ScopedName = ScopedName(tenant: Identifier, workspace: Identifier, name: Identifier)

  predicate ScopedLess(a: ScopedName, b: ScopedName) {
    || StringLess(a.tenant, b.tenant)
    || (a.tenant == b.tenant && StringLess(a.workspace, b.workspace))
    || (a.tenant == b.tenant && a.workspace == b.workspace && StringLess(a.name, b.name))
  }

  lemma ScopedOrder()
    ensures StrictTotal(ScopedLess)
  {
    StringOrder();
  }

  function SortedScoped(s: set<ScopedName>): (r: seq<ScopedName>)
    ensures forall x :: x in r <==> x in s
    ensures Increasing(ScopedLess, r)
    ensures NoDuplicates(r)
    ensures |r| == |s|
  {
    ScopedOrder();
    Enumerate(ScopedLess, s)
  }
}
