/**
 * The declarations the word readers are meant to feed: the primitive type
 * flags and the plain records for namespaces, functions, parameters and
 * values.
 */
module Definitions {
  import opened Options

  /** Every bit that one of the declared flags sets. */
  const ALL_BITS: bv32 := 0x8F

  /**
   * `Type`: a set of flags stored in a `u32`. Only the declared bits can
   * ever be set, since values are built from the constants with `|` and `&`.
   */
  type Type = t: bv32 | t & !ALL_BITS == 0

  /** The empty set of flags. */
  const Nil: Type := 0x00
  const Bool: Type := 0x01
  const Integer: Type := 0x02
  const Float: Type := 0x04
  const String: Type := 0x08
  const Unknown: Type := 0x80

  /** The named flags that own a bit of their own. */
  const SINGLE_FLAGS: set<Type> := {Bool, Integer, Float, String, Unknown}

  /** The named flags a `Type` holds: the abstract set its bits stand for. */
  function Flags(t: Type): set<Type>
  {
    set f | f in SINGLE_FLAGS && t & f != 0
  }

  /** `a | b`: the union of two flag sets. */
  function Union(a: Type, b: Type): (r: Type)
    ensures Flags(r) == Flags(a) + Flags(b)
  {
    a | b
  }

  /** `a & b`: the intersection of two flag sets. */
  function Intersection(a: Type, b: Type): (r: Type)
    ensures Flags(r) == Flags(a) * Flags(b)
  {
    a & b
  }

  /** `a.contains(b)`: every flag of `b` is also in `a`. */
  predicate Contains(a: Type, b: Type)
  {
    a & b == b
  }

  /** The bits are a faithful encoding: two types holding the same flags are the same value. */
  lemma FlagsInjective(a: Type, b: Type)
    requires Flags(a) == Flags(b)
    ensures a == b
  {
    assert (a & Bool != 0) == (Bool in Flags(a));
    assert (a & Integer != 0) == (Integer in Flags(a));
    assert (a & Float != 0) == (Float in Flags(a));
    assert (a & String != 0) == (String in Flags(a));
    assert (a & Unknown != 0) == (Unknown in Flags(a));
    assert (b & Bool != 0) == (Bool in Flags(b));
    assert (b & Integer != 0) == (Integer in Flags(b));
    assert (b & Float != 0) == (Float in Flags(b));
    assert (b & String != 0) == (String in Flags(b));
    assert (b & Unknown != 0) == (Unknown in Flags(b));
  }

  /** `contains` is the subset relation on the flags held. */
  lemma ContainsIsSubset(a: Type, b: Type)
    ensures Contains(a, b) <==> Flags(b) <= Flags(a)
  {
    if Flags(b) <= Flags(a) {
      FlagsInjective(Intersection(a, b), b);
    }
  }

  /** `Nil` holds no flag, so it is the identity of `|` and every type contains it. */
  lemma NilIsEmpty(t: Type)
    ensures Flags(Nil) == {}
    ensures Union(Nil, t) == t
    ensures Contains(t, Nil)
  {
  }

  /** Each named flag other than `Nil` is one bit, and no two of them share a bit. */
  lemma SingleFlagsDisjoint()
    ensures |SINGLE_FLAGS| == 5
    ensures forall f :: f in SINGLE_FLAGS ==> f != 0 && f & (f - 1) == 0
    ensures forall f :: f in SINGLE_FLAGS ==> Flags(f) == {f}
    ensures forall f, g :: f in SINGLE_FLAGS && g in SINGLE_FLAGS && f != g ==> Intersection(f, g) == Nil
  {
  }

  /** `Unknown` shares no bit with any concrete primitive, whatever union of them is taken. */
  lemma UnknownDisjointFromPrimitives(t: Type)
    requires Unknown !in Flags(t)
    ensures Intersection(Unknown, t) == Nil
  {
  }

  /** `test`: `(Nil | String) & String == String`. */
  lemma Test()
    ensures Intersection(Union(Nil, String), String) == String
  {
  }

  /** A value carries only its type. */
  datatype Value = Value(t: Type)

  /** A formal parameter: its type and, when one is given, its default value. */
  datatype Param = Param(t: Type, defaultValue: Option<Value>)

  /** A function: positional parameters, keyword parameters by name, all parameters, and the return type. */
  datatype Function = Function(
    posParams: seq<Param>,
    keyParam: map<string, Param>,
    params: seq<Param>,
    returnType: Type)

  /** A namespace: its name, nested namespaces, functions and variable types. */
  datatype Namespace = Namespace(
    name: string,
    children: seq<Namespace>,
    funs: seq<Function>,
    vars: seq<Type>)

  /** `Namespace::default()`: every field at its type's default, so an unnamed, empty namespace. */
  function DefaultNamespace(): (n: Namespace)
    ensures |n.name| == 0
    ensures |n.children| == 0 && |n.funs| == 0 && |n.vars| == 0
  {
    Namespace("", [], [], [])
  }

  /** `Namespace::DELIMITER`: the characters that separate words. */
  const DELIMITER: string := " \n"
}
