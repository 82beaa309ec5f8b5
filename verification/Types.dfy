/** The types of the specification language that the expression passes look at, with the two
    compatibility relations and the common-type fold.  An identifier names one type, so equality of
    integer types by identifier is equality of values here. */
module Types {
  datatype RawBounds = Bounds(lower: int, upper: int) {
    predicate ContainsInt(value: int) {
      lower <= value <= upper
    }

    predicate ContainsBounds(other: RawBounds) {
      lower <= other.lower && other.upper <= upper
    }
  }

  type Bounds = b: RawBounds | b.lower <= b.upper witness Bounds(0, 0)

  function Merge(a: Bounds, b: Bounds): Bounds {
    Bounds(if a.lower <= b.lower then a.lower else b.lower,
           if a.upper >= b.upper then a.upper else b.upper)
  }

  /** The identifier of a type: one of the built-in ones, or a declared one. */
  datatype TypeId = BooleanId | BaseIntegerId | Declared(name: string)

  datatype Ty =
    | Undefined
    | Any
    | Enumeration(id: TypeId)
    | UniversalInteger(bounds: Bounds)
    | Integer(id: TypeId, bounds: Bounds)
  {
    predicate AnyInteger() {
      UniversalInteger? || Integer?
    }

    /** All integer types are compatible with each other; this is the relation of model checking. */
    predicate IsCompatible(other: Ty) {
      if Undefined? || other.Undefined? then false
      else if Any? || other.Any? then true
      else if AnyInteger() && other.AnyInteger() then true
      else Enumeration? && other.Enumeration? && id == other.id
    }

    /** Distinct integer types are not compatible; this is the relation that decides where an explicit
        conversion is needed. */
    predicate IsCompatibleStrong(other: Ty) {
      if Integer? && other.UniversalInteger? then bounds.ContainsBounds(other.bounds)
      else if UniversalInteger? && other.Integer? then other.bounds.ContainsBounds(bounds)
      else if Integer? && other.Integer? then this == other
      else IsCompatible(other)
    }

    function CommonType(other: Ty): Ty {
      if Undefined? || other.Undefined? then Undefined
      else if other.Any? then this
      else if Any? then other
      else if UniversalInteger? && other.UniversalInteger? then
        UniversalInteger(Merge(bounds, other.bounds))
      else if AnyInteger() && other.AnyInteger() then BASE_INTEGER
      else if this == other then this
      else Undefined
    }
  }

  /** What the strong relation means for integers: a constant is compatible with a declared type exactly if all its
      values are values of the type, and two declared types only if they are the same.  It implies the weak one. */
  lemma StrongIsInclusion(t: Ty, s: Ty)
    ensures t.IsCompatibleStrong(s) ==> t.IsCompatible(s)
    ensures t.IsCompatibleStrong(s) <==> s.IsCompatibleStrong(t)
    ensures t.Integer? && s.Integer? ==> (t.IsCompatibleStrong(s) <==> t == s)
    ensures t.Integer? && s.UniversalInteger? ==>
              (t.IsCompatibleStrong(s) <==> forall v :: s.bounds.ContainsInt(v) ==> t.bounds.ContainsInt(v))
  {
    if t.Integer? && s.UniversalInteger? {
      assert s.bounds.ContainsInt(s.bounds.lower) && s.bounds.ContainsInt(s.bounds.upper);
    }
  }

  const MAX_SCALAR := 0x7FFF_FFFF_FFFF_FFFF

  const BOOLEAN := Enumeration(BooleanId)

  const BASE_INTEGER := Integer(BaseIntegerId, Bounds(0, MAX_SCALAR))

  /** The type of a declared integer variable that holds a value of type `t`. */
  function ToInteger(t: Ty): Ty {
    if t.Integer? then t else BASE_INTEGER
  }

  /** The left fold over a list of types, starting from `Any`. */
  function CommonTypeFrom(start: Ty, types: seq<Ty>): Ty
    decreases |types|
  {
    if types == [] then start else CommonTypeFrom(start.CommonType(types[0]), types[1..])
  }

  function CommonTypeOf(types: seq<Ty>): Ty {
    CommonTypeFrom(Any, types)
  }

  lemma CommonTypeAssociative(a: Ty, b: Ty, c: Ty)
    ensures a.CommonType(b).CommonType(c) == a.CommonType(b.CommonType(c))
    ensures a.CommonType(b) == b.CommonType(a)
  {
  }

  /** The fold can be split off at its start value. */
  lemma {:induction false} FoldFromStart(start: Ty, types: seq<Ty>)
    ensures CommonTypeFrom(start, types) == start.CommonType(CommonTypeOf(types))
    decreases |types|
  {
    if types != [] {
      FoldFromStart(start.CommonType(types[0]), types[1..]);
      FoldFromStart(Any.CommonType(types[0]), types[1..]);
      CommonTypeAssociative(start, types[0], CommonTypeOf(types[1..]));
    }
  }

  lemma FoldConcat(xs: seq<Ty>, ys: seq<Ty>)
    ensures CommonTypeOf(xs + ys) == CommonTypeOf(xs).CommonType(CommonTypeOf(ys))
  {
    if xs == [] {
      assert xs + ys == ys;
    } else {
      assert (xs + ys)[1..] == xs[1..] + ys;
      FoldConcat(xs[1..], ys);
      FoldFromStart(Any.CommonType(xs[0]), xs[1..] + ys);
      FoldFromStart(Any.CommonType(xs[0]), xs[1..]);
      CommonTypeAssociative(xs[0], CommonTypeOf(xs[1..]), CommonTypeOf(ys));
    }
  }

  /** The common type does not depend on the order of the list. */
  lemma {:induction false} CommonTypePermutation(xs: seq<Ty>, ys: seq<Ty>)
    requires multiset(xs) == multiset(ys)
    ensures CommonTypeOf(xs) == CommonTypeOf(ys)
  {
    if xs == [] {
      assert |multiset(ys)| == 0;
    } else {
      assert xs == [xs[0]] + xs[1..];
      assert xs[0] in multiset(ys);
      var i :| 0 <= i < |ys| && ys[i] == xs[0];
      var front, back := ys[..i], ys[i + 1..];
      assert ys == front + ([xs[0]] + back);
      assert multiset(xs[1..]) == multiset(xs) - multiset{xs[0]} == multiset(front + back);
      CommonTypePermutation(xs[1..], front + back);
      FoldConcat([xs[0]], xs[1..]);
      FoldConcat(front, back);
      FoldConcat(front, [xs[0]] + back);
      FoldConcat([xs[0]], back);
      var x, f, b := CommonTypeOf([xs[0]]), CommonTypeOf(front), CommonTypeOf(back);
      CommonTypeAssociative(x, f, b);
      CommonTypeAssociative(f, x, b);
      CommonTypeAssociative(x, f, f);
    }
  }

  /** What the common type promises about each member of the list. */
  predicate Covers(result: Ty, member: Ty) {
    && result.IsCompatible(member)
    && (result.UniversalInteger? && member.UniversalInteger? ==>
          result.bounds.ContainsBounds(member.bounds))
    && (result.UniversalInteger? ==> member.UniversalInteger? || member.Any?)
    && (result.Any? ==> member.Any?)
  }

  lemma CoversMonotone(a: Ty, b: Ty, member: Ty)
    requires a.CommonType(b) != Undefined && Covers(a, member)
    ensures Covers(a.CommonType(b), member)
  {
  }

  lemma MemberCovered(start: Ty, member: Ty)
    requires start.CommonType(member) != Undefined
    ensures Covers(start.CommonType(member), member)
  {
  }

  lemma {:induction false} FoldCovers(start: Ty, types: seq<Ty>, member: Ty)
    requires CommonTypeFrom(start, types) != Undefined
    requires Covers(start, member) || member in types
    ensures Covers(CommonTypeFrom(start, types), member)
    decreases |types|
  {
    if types != [] {
      FoldFromStart(start.CommonType(types[0]), types[1..]);
      if Covers(start, member) {
        CoversMonotone(start, types[0], member);
      } else if member == types[0] {
        MemberCovered(start, member);
      }
      FoldCovers(start.CommonType(types[0]), types[1..], member);
    }
  }

  /** Every member is compatible with a defined common type, and a universal result encloses the bounds
      of its members. */
  lemma CommonTypeCovers(types: seq<Ty>)
    requires CommonTypeOf(types) != Undefined
    ensures forall m :: m in types ==> Covers(CommonTypeOf(types), m)
  {
    forall m | m in types ensures Covers(CommonTypeOf(types), m) {
      FoldCovers(Any, types, m);
    }
  }

  /** The bounds of a universal result are the least ones: both ends belong to some member. */
  lemma {:induction false} CommonBoundsAreTight(start: Ty, types: seq<Ty>)
    requires CommonTypeFrom(start, types).UniversalInteger?
    ensures var r := CommonTypeFrom(start, types).bounds;
            && (exists m :: m in [start] + types && m.UniversalInteger? && m.bounds.lower == r.lower)
            && (exists m :: m in [start] + types && m.UniversalInteger? && m.bounds.upper == r.upper)
    decreases |types|
  {
    if types == [] {
      assert start in [start] + types;
    } else {
      var next := start.CommonType(types[0]);
      FoldFromStart(next, types[1..]);
      CommonBoundsAreTight(next, types[1..]);
      var r := CommonTypeFrom(start, types).bounds;
      assert [start] + types == [start, types[0]] + types[1..];
      var lo :| lo in [next] + types[1..] && lo.UniversalInteger? && lo.bounds.lower == r.lower;
      var hi :| hi in [next] + types[1..] && hi.UniversalInteger? && hi.bounds.upper == r.upper;
      assert lo in [start] + types || lo == next;
      assert hi in [start] + types || hi == next;
      assert start in [start] + types && types[0] in [start] + types;
    }
  }

  /** The common type of a list with a universal member is universal or `Base_Integer`. */
  lemma {:induction false} UniversalMember(start: Ty, types: seq<Ty>, c: Ty)
    requires CommonTypeFrom(start, types) != Undefined && c.UniversalInteger?
    requires start.UniversalInteger? || start == BASE_INTEGER || c in types
    ensures CommonTypeFrom(start, types).UniversalInteger? || CommonTypeFrom(start, types) == BASE_INTEGER
    decreases |types|
  {
    if types != [] {
      FoldFromStart(start.CommonType(types[0]), types[1..]);
      UniversalMember(start.CommonType(types[0]), types[1..], c);
    }
  }

  /** The members of a list that constrain the common type: all but the ones of type `Any`. */
  function Settled(types: seq<Ty>): (s: seq<Ty>)
    ensures forall t :: t in s <==> t in types && !t.Any?
  {
    if types == [] then [] else (if types[0].Any? then [] else [types[0]]) + Settled(types[1..])
  }

  ghost predicate AllIntegers(types: seq<Ty>) {
    forall t :: t in types ==> t.UniversalInteger? || t.Integer?
  }

  ghost predicate AllUniversal(types: seq<Ty>) {
    forall t :: t in types ==> t.UniversalInteger?
  }

  /** All members are one and the same enumeration. */
  ghost predicate OneEnumeration(types: seq<Ty>) {
    forall t :: t in types ==> t.Enumeration? && t == types[0]
  }

  /** The lists of types that go together: nothing undefined, and either integers only or one enumeration. */
  ghost predicate Harmonious(types: seq<Ty>) {
    Undefined !in types && (AllIntegers(Settled(types)) || OneEnumeration(Settled(types)))
  }

  lemma NoMembers()
    ensures CommonTypeOf([]) == Any && Settled([]) == []
  {
  }

  lemma FirstMember(types: seq<Ty>)
    requires types != []
    ensures CommonTypeOf(types) == types[0].CommonType(CommonTypeOf(types[1..]))
    ensures Settled(types) == (if types[0].Any? then [] else [types[0]]) + Settled(types[1..])
    ensures forall t :: t in types <==> t == types[0] || t in types[1..]
  {
    FoldFromStart(types[0], types[1..]);
    assert types == [types[0]] + types[1..];
  }

  /** The common type as a function of the members alone: nothing but `Any` gives `Any`, a single member gives itself,
      universal integers give a universal integer, one enumeration gives itself, and two or more integers with a
      declared one among them give `Base_Integer`, also if both are of the same declared type. */
  lemma {:induction false} CommonTypeOfMembers(types: seq<Ty>)
    ensures CommonTypeOf(types) != Undefined <==> Harmonious(types)
    ensures Settled(types) == [] ==> CommonTypeOf(types) == Any
    ensures |Settled(types)| == 1 ==> CommonTypeOf(types) == Settled(types)[0]
    ensures Settled(types) != [] && OneEnumeration(Settled(types)) ==> CommonTypeOf(types) == Settled(types)[0]
    ensures Settled(types) != [] && AllUniversal(Settled(types)) ==> CommonTypeOf(types).UniversalInteger?
    ensures |Settled(types)| >= 2 && AllIntegers(Settled(types)) && !AllUniversal(Settled(types)) ==>
              CommonTypeOf(types) == BASE_INTEGER
  {
    hide Settled, CommonTypeFrom, CommonTypeOf;
    if types == [] {
      NoMembers();
    } else {
      var s := Settled(types[1..]);
      CommonTypeOfMembers(types[1..]);
      FirstMember(types);
      if !types[0].Any? {
        assert forall t :: t in Settled(types) <==> t == types[0] || t in s;
        assert s != [] ==> s[0] in s;
      }
    }
  }

  /** Pairwise compatibility of the members, each one also with itself. */
  ghost predicate PairwiseCompatible(types: seq<Ty>) {
    forall a, b :: a in types && b in types ==> a.IsCompatible(b)
  }

  /** There is a common type exactly if every two members are compatible. */
  lemma CommonTypeIsDefined(types: seq<Ty>)
    ensures CommonTypeOf(types) != Undefined <==> PairwiseCompatible(types)
  {
    CommonTypeOfMembers(types);
    var s := Settled(types);
    assert !Undefined.IsCompatible(Undefined);
    if PairwiseCompatible(types) {
      assert Undefined !in types;
      if s != [] {
        assert forall t :: t in s ==> s[0].IsCompatible(t);
      }
      assert AllIntegers(s) || OneEnumeration(s);
    }
  }

  /** When the common type holds the values of a universal member: always if it is universal, and otherwise exactly
      if `Base_Integer` encloses the member. */
  lemma CommonTypeHoldsConstant(types: seq<Ty>, c: Ty)
    requires CommonTypeOf(types) != Undefined && c in types && c.UniversalInteger?
    ensures CommonTypeOf(types).IsCompatibleStrong(c) <==>
            CommonTypeOf(types).UniversalInteger? || BASE_INTEGER.bounds.ContainsBounds(c.bounds)
  {
    UniversalMember(Any, types, c);
  }

  /** A member that is only compatible because all integers are: a negative constant among machine
      integers gets the common type `Base_Integer`, which does not hold its value. */
  lemma CommonTypeNeedNotHoldAConstant()
    ensures var c := UniversalInteger(Bounds(-1, -1));
            var i := Integer(Declared("P::T"), Bounds(0, 255));
            && CommonTypeOf([c, i]) == BASE_INTEGER
            && BASE_INTEGER.IsCompatible(c)
            && !BASE_INTEGER.IsCompatibleStrong(c)
  {
    var c := UniversalInteger(Bounds(-1, -1));
    var i := Integer(Declared("P::T"), Bounds(0, 255));
    assert [c, i][1..] == [i];
    assert CommonTypeOf([c, i]) == CommonTypeFrom(c, [i]);
  }
}
