/** `project/lang/utils.py`: the dynamically typed values of the query language
    (`Entity`), the table of identifiers the interpreter assigns them to, and the
    rendering of interpreter errors. */
module LangUtils {
  import opened Collections

  /** An automaton value, kept abstract: a loaded or built automaton, or a term for the
      product, union or concatenation pyformlang builds from two of them. */
  datatype Automaton =
    | Loaded(id: nat)
    | Intersection(left: Automaton, right: Automaton)
    | Union(left: Automaton, right: Automaton)
    | Concatenation(left: Automaton, right: Automaton)

  /** An element of a set value: a number or a string. */
  datatype Atom = AtomInt(i: int) | AtomStr(s: string)

  /** What an `Entity` wraps. */
  datatype Value =
    | Int(i: int)
    | Str(s: string)
    | Set(elems: set<Atom>)
    | Aut(aut: Automaton)

  /** The Python type of a wrapped value, `get_type()`. */
  datatype Kind = IntKind | StrKind | SetKind | AutomatonKind

  function KindOf(v: Value): (k: Kind)
    ensures v.Int? <==> k == IntKind
    ensures v.Str? <==> k == StrKind
    ensures v.Set? <==> k == SetKind
    ensures v.Aut? <==> k == AutomatonKind
  {
    match v
    case Int(_) => IntKind
    case Str(_) => StrKind
    case Set(_) => SetKind
    case Aut(_) => AutomatonKind
  }

  /** The right operand of `==` and of the comparisons: another `Entity`, or a Python
      object that is not one. */
  datatype Operand = AnEntity(val: Value) | NotEntity(kind: Kind)

  datatype Op = AndOp | OrOp | AddOp

  /** The exceptions the operators raise. */
  datatype EntityError =
      /** `Types ... and ... are not valid for ... operation`. */
    | OperandTypes(op: Op, left: Kind, right: Kind)
      /** `Comparison not supported between instances of 'Entity' and ...`. */
    | NotComparable(other: Kind)
      /** Python's own `TypeError` for an ordering between values of unordered kinds. */
    | Unordered(left: Kind, right: Kind)

  /** `Entity.__and__`: automata intersect, sets intersect, anything else is a type
      error. */
  function And(x: Value, y: Value): (r: Result<Value, EntityError>)
    ensures r.Ok? <==> (x.Aut? && y.Aut?) || (x.Set? && y.Set?)
    ensures r.Err? ==> r.error == OperandTypes(AndOp, KindOf(x), KindOf(y))
    ensures x.Set? && y.Set? ==>
              (r.Ok? && r.value.Set? && forall a :: a in r.value.elems <==> a in x.elems && a in y.elems)
  {
    if x.Aut? && y.Aut? then Ok(Aut(Intersection(x.aut, y.aut)))
    else if x.Set? && y.Set? then Ok(Set(x.elems * y.elems))
    else Err(OperandTypes(AndOp, KindOf(x), KindOf(y)))
  }

  /** `Entity.__or__`: automata unite, sets unite, anything else is a type error. */
  function Or(x: Value, y: Value): (r: Result<Value, EntityError>)
    ensures r.Ok? <==> (x.Aut? && y.Aut?) || (x.Set? && y.Set?)
    ensures r.Err? ==> r.error == OperandTypes(OrOp, KindOf(x), KindOf(y))
    ensures x.Set? && y.Set? ==>
              (r.Ok? && r.value.Set? && forall a :: a in r.value.elems <==> a in x.elems || a in y.elems)
  {
    if x.Aut? && y.Aut? then Ok(Aut(Union(x.aut, y.aut)))
    else if x.Set? && y.Set? then Ok(Set(x.elems + y.elems))
    else Err(OperandTypes(OrOp, KindOf(x), KindOf(y)))
  }

  /** `Entity.__add__`: automata concatenate, strings concatenate, numbers add, anything
      else is a type error. */
  function Add(x: Value, y: Value): (r: Result<Value, EntityError>)
    ensures r.Ok? <==> (x.Aut? && y.Aut?) || (x.Str? && y.Str?) || (x.Int? && y.Int?)
    ensures r.Err? ==> r.error == OperandTypes(AddOp, KindOf(x), KindOf(y))
    ensures x.Str? && y.Str? ==>
              (r.Ok? && r.value.Str? && |r.value.s| == |x.s| + |y.s| &&
               r.value.s[..|x.s|] == x.s && r.value.s[|x.s|..] == y.s)
    ensures x.Int? && y.Int? ==> r.Ok? && r.value.Int? && r.value.i == x.i + y.i
  {
    if x.Aut? && y.Aut? then Ok(Aut(Concatenation(x.aut, y.aut)))
    else if x.Str? && y.Str? then Ok(Str(x.s + y.s))
    else if x.Int? && y.Int? then Ok(Int(x.i + y.i))
    else Err(OperandTypes(AddOp, KindOf(x), KindOf(y)))
  }

  /** `&` and `|` on sets do not depend on the order of their operands ... */
  lemma SetOpsCommute(x: Value, y: Value)
    requires x.Set? && y.Set?
    ensures And(x, y) == And(y, x) && Or(x, y) == Or(y, x)
  {
    assert x.elems * y.elems == y.elems * x.elems;
    assert x.elems + y.elems == y.elems + x.elems;
  }

  /** ... and absorb each other. */
  lemma SetOpsAbsorb(x: Value, y: Value)
    requires x.Set? && y.Set?
    ensures And(x, Or(x, y).value) == Ok(x) && Or(x, And(x, y).value) == Ok(x)
  {
    assert x.elems * (x.elems + y.elems) == x.elems;
    assert x.elems + x.elems * y.elems == x.elems;
  }

  /** `+` on strings is associative ... */
  lemma AddStrAssoc(x: Value, y: Value, z: Value)
    requires x.Str? && y.Str? && z.Str?
    ensures Add(Add(x, y).value, z) == Add(x, Add(y, z).value)
  {
    assert (x.s + y.s) + z.s == x.s + (y.s + z.s);
  }

  /** ... and on numbers commutative and associative. */
  lemma AddIntLaws(x: Value, y: Value, z: Value)
    requires x.Int? && y.Int? && z.Int?
    ensures Add(x, y) == Add(y, x)
    ensures Add(Add(x, y).value, z) == Add(x, Add(y, z).value)
  {
  }

  /** The operators fail exactly on operands of different kinds, other than the kinds
      each operator accepts. */
  lemma MixedKindsFail(x: Value, y: Value)
    requires KindOf(x) != KindOf(y)
    ensures And(x, y).Err? && Or(x, y).Err? && Add(x, y).Err?
  {
  }

  /** `Entity.__eq__`: two entities are equal when their values are; an automaton is
      compared with pyformlang's own equality, given here as `sameAut`; anything that
      is not an entity is unequal. */
  function Eq(x: Value, other: Operand, sameAut: (Automaton, Automaton) -> bool): (r: bool)
    ensures other.NotEntity? ==> !r
    ensures other.AnEntity? && KindOf(x) != KindOf(other.val) ==> !r
    ensures other.AnEntity? && !x.Aut? ==> (r <==> x == other.val)
  {
    if other.NotEntity? then false
    else if x.Aut? && other.val.Aut? then sameAut(x.aut, other.val.aut)
    else x == other.val
  }

  /** `Entity.__ne__`: anything that is not an entity is unequal, so is an entity of
      another kind, and other entities are unequal iff their values differ. */
  function Ne(x: Value, other: Operand, sameAut: (Automaton, Automaton) -> bool): (r: bool)
    ensures other.NotEntity? ==> r
    ensures other.AnEntity? && KindOf(x) != KindOf(other.val) ==> r
    ensures other.AnEntity? && !x.Aut? ==> (r <==> x != other.val)
  {
    !Eq(x, other, sameAut)
  }

  /** Equality is reflexive and symmetric on everything but automata, where it is what
      `sameAut` makes it. */
  lemma EqRefl(x: Value, sameAut: (Automaton, Automaton) -> bool)
    requires x.Aut? ==> sameAut(x.aut, x.aut)
    ensures Eq(x, AnEntity(x), sameAut) && !Ne(x, AnEntity(x), sameAut)
  {
  }

  lemma EqSymm(x: Value, y: Value, sameAut: (Automaton, Automaton) -> bool)
    requires x.Aut? && y.Aut? ==> sameAut(x.aut, y.aut) == sameAut(y.aut, x.aut)
    ensures Eq(x, AnEntity(y), sameAut) == Eq(y, AnEntity(x), sameAut)
  {
  }

  datatype Comparison = Lt | Le | Gt | Ge

  /** Python's `<` on strings: lexicographic by code point. */
  predicate StrLess(a: string, b: string)
    decreases |a|
  {
    if a == [] then b != []
    else if b == [] then false
    else if a[0] != b[0] then a[0] < b[0]
    else StrLess(a[1..], b[1..])
  }

  /** Python's ordering of two values: numbers by size, strings lexicographically, sets
      by inclusion; any other pair of kinds has no ordering. */
  function Compare(c: Comparison, x: Value, y: Value): (r: Result<bool, EntityError>)
    ensures r.Err? <==> !((x.Int? && y.Int?) || (x.Str? && y.Str?) || (x.Set? && y.Set?))
    ensures r.Err? ==> r.error == Unordered(KindOf(x), KindOf(y))
  {
    if x.Int? && y.Int? then
      Ok(match c case Lt => x.i < y.i case Le => x.i <= y.i case Gt => x.i > y.i case Ge => x.i >= y.i)
    else if x.Str? && y.Str? then
      Ok(match c
         case Lt => StrLess(x.s, y.s)
         case Le => StrLess(x.s, y.s) || x.s == y.s
         case Gt => StrLess(y.s, x.s)
         case Ge => StrLess(y.s, x.s) || x.s == y.s)
    else if x.Set? && y.Set? then
      Ok(match c
         case Lt => x.elems < y.elems
         case Le => x.elems <= y.elems
         case Gt => x.elems > y.elems
         case Ge => x.elems >= y.elems)
    else Err(Unordered(KindOf(x), KindOf(y)))
  }

  /** `Entity.__lt__`, `__le__`, `__gt__` and `__ge__`: the wrapped values are
      compared; an operand that is not an entity is a type error. */
  function CompareEntity(c: Comparison, x: Value, other: Operand): (r: Result<bool, EntityError>)
    ensures r.Ok? <==> other.AnEntity? &&
                       ((x.Int? && other.val.Int?) || (x.Str? && other.val.Str?) || (x.Set? && other.val.Set?))
    ensures other.NotEntity? ==> r.Err? && r.error == NotComparable(other.kind)
    ensures other.AnEntity? && r.Err? ==> r.error == Unordered(KindOf(x), KindOf(other.val))
  {
    if other.NotEntity? then Err(NotComparable(other.kind)) else Compare(c, x, other.val)
  }

  /** Between two entities, swapping the operands turns `<` into `>` and `<=` into `>=`,
      and keeps a pair without an ordering one. */
  lemma CompareEntityFlip(x: Value, y: Value)
    ensures CompareEntity(Lt, x, AnEntity(y)).Ok? == CompareEntity(Gt, y, AnEntity(x)).Ok?
    ensures CompareEntity(Lt, x, AnEntity(y)).Ok? ==>
              CompareEntity(Lt, x, AnEntity(y)) == CompareEntity(Gt, y, AnEntity(x)) &&
              CompareEntity(Le, x, AnEntity(y)) == CompareEntity(Ge, y, AnEntity(x))
  {
    CompareFlip(x, y);
  }

  /** Swapping the operands turns `<` into `>` and `<=` into `>=`, and keeps a pair of
      kinds without an ordering one. */
  lemma CompareFlip(x: Value, y: Value)
    ensures Compare(Lt, x, y).Ok? == Compare(Gt, y, x).Ok?
    ensures Compare(Lt, x, y).Ok? ==>
              Compare(Lt, x, y) == Compare(Gt, y, x) && Compare(Le, x, y) == Compare(Ge, y, x)
  {
  }

  /** `<=` is `<` or `==`, for every kind that has an ordering. */
  lemma LeIsLtOrEq(x: Value, y: Value)
    requires Compare(Le, x, y).Ok?
    ensures Compare(Le, x, y).value == (Compare(Lt, x, y).value || x == y)
  {
  }

  /** Python's string order is a strict total order: irreflexive ... */
  lemma {:induction false} StrLessIrrefl(a: string)
    ensures !StrLess(a, a)
    decreases |a|
  {
    if a != [] {
      StrLessIrrefl(a[1..]);
    }
  }

  /** ... transitive ... */
  lemma {:induction false} StrLessTrans(a: string, b: string, c: string)
    requires StrLess(a, b) && StrLess(b, c)
    ensures StrLess(a, c)
    decreases |a|
  {
    if a != [] && b != [] && c != [] && a[0] == b[0] && b[0] == c[0] {
      StrLessTrans(a[1..], b[1..], c[1..]);
    }
  }

  /** ... and total. */
  lemma {:induction false} StrLessTotal(a: string, b: string)
    ensures StrLess(a, b) || a == b || StrLess(b, a)
    decreases |a|
  {
    if a != [] && b != [] && a[0] == b[0] {
      StrLessTotal(a[1..], b[1..]);
      if a[1..] == b[1..] {
        assert a == [a[0]] + a[1..] && b == [b[0]] + b[1..];
      }
    }
  }

  /** Exactly one of `<`, `==` and `>` holds between two numbers and between two
      strings. */
  lemma Trichotomy(x: Value, y: Value)
    requires (x.Int? && y.Int?) || (x.Str? && y.Str?)
    ensures Compare(Lt, x, y).value || x == y || Compare(Gt, x, y).value
    ensures !(Compare(Lt, x, y).value && Compare(Gt, x, y).value)
    ensures x == y ==> !Compare(Lt, x, y).value
  {
    if x.Str? {
      StrLessTotal(x.s, y.s);
      StrLessIrrefl(x.s);
      if StrLess(x.s, y.s) && StrLess(y.s, x.s) {
        StrLessTrans(x.s, y.s, x.s);
      }
      if x == y {
        assert x.s == y.s;
      }
    }
  }

  /** The smoke test of `tests/test_interpreter.py`: `{3, 2} & {1, 2}` is `{2}` and
      `{3, 2} | {1, 2}` is `{1, 2, 3}`. */
  lemma SetScenario()
    ensures And(Set({AtomInt(3), AtomInt(2)}), Set({AtomInt(1), AtomInt(2)})) == Ok(Set({AtomInt(2)}))
    ensures Or(Set({AtomInt(3), AtomInt(2)}), Set({AtomInt(1), AtomInt(2)})) == Ok(Set({AtomInt(1), AtomInt(2), AtomInt(3)}))
  {
    var h, g := {AtomInt(3), AtomInt(2)}, {AtomInt(1), AtomInt(2)};
    assert h * g == {AtomInt(2)};
    assert h + g == {AtomInt(1), AtomInt(2), AtomInt(3)};
  }

  /** ... and `2 ++ 2` is `4` while `"2" ++ "2"` is `"22"`. */
  lemma AddScenario()
    ensures Add(Int(2), Int(2)) == Ok(Int(4))
    ensures Add(Str("2"), Str("2")) == Ok(Str("22"))
  {
    assert "2" + "2" == "22";
  }

  /** The error `Identifiers` raises for a name that was never assigned. */
  datatype KeyError = KeyError(message: string)

  /** A Python object assigned to an identifier: an entity, or a plain value that the
      table wraps into one. */
  datatype Assigned = EntityObject(val: Value) | PlainObject(raw: Value)

  /** The value of the entity an assigned object ends up as: an entity is stored as it
      is, a plain value is wrapped once. */
  function AsEntity(o: Assigned): Value {
    match o
    case EntityObject(v) => v
    case PlainObject(v) => v
  }

  /** Assigning an entity or the plain value it wraps stores the same thing: the table
      never wraps twice. */
  lemma AsEntityOnce(v: Value)
    ensures AsEntity(EntityObject(v)) == AsEntity(PlainObject(v)) == v
  {
  }

  /** `Identifiers`: the interpreter's name table. Every stored value is an entity, so
      the table maps each name to the value its entity wraps. */
  class Identifiers {
    var data: map<string, Value>

    constructor()
      ensures data == map[]
    {
      data := map[];
    }

    /** `__setitem__`. */
    method SetItem(key: string, value: Assigned)
      modifies this
      ensures data == old(data)[key := AsEntity(value)]
    {
      data := data[key := AsEntity(value)];
    }

    /** `__getitem__`: the stored entity, or a `KeyError` naming the identifier. */
    method GetItem(key: string) returns (r: Result<Value, KeyError>)
      ensures key in data ==> r == Ok(data[key])
      ensures key !in data ==> r == Err(KeyError(key + " : identifier not found"))
    {
      if key in data {
        r := Ok(data[key]);
      } else {
        r := Err(KeyError(key + " : identifier not found"));
      }
    }
  }

  /** Assigning and then reading a name gives back the entity assigned, and leaves the
      other names as they were. */
  method SetThenGet(ids: Identifiers, key: string, value: Assigned, other: string)
      returns (r: Result<Value, KeyError>, s: Result<Value, KeyError>)
    modifies ids
    ensures r == Ok(AsEntity(value))
    ensures other != key ==> s == (if other in old(ids.data) then Ok(old(ids.data)[other]) else Err(KeyError(other + " : identifier not found")))
  {
    ids.SetItem(key, value);
    r := ids.GetItem(key);
    s := ids.GetItem(other);
  }

  /** The decimal digits of `n`. */
  function NatToString(n: nat): (s: string)
    ensures s != [] && forall i :: 0 <= i < |s| ==> '0' <= s[i] <= '9'
    decreases n
  {
    var d := [(n % 10) as char + '0'];
    if n < 10 then d else NatToString(n / 10) + d
  }

  /** The number a string of decimal digits denotes. */
  function DigitsValue(s: string): int
    decreases |s|
  {
    if s == [] then 0 else 10 * DigitsValue(s[..|s| - 1]) + (s[|s| - 1] as int - '0' as int)
  }

  /** Reading the digits back gives the number. */
  lemma {:induction false} NatToStringValue(n: nat)
    ensures DigitsValue(NatToString(n)) == n
    decreases n
  {
    var s := NatToString(n);
    if n >= 10 {
      NatToStringValue(n / 10);
      assert s[..|s| - 1] == NatToString(n / 10);
    }
  }

  /** Where in the program an error happened: the start token of the rule being
      visited, with its 1-based line and 0-based column. */
  datatype Location = Location(line: nat, column: nat)

  /** `ctx_location`: `line:column` with the column counted from 1. */
  function CtxLocation(ctx: Location): (s: string)
    ensures exists i :: 0 <= i < |s| && s[i] == ':' && s[..i] == NatToString(ctx.line) &&
                        s[i + 1..] == NatToString(ctx.column + 1)
  {
    var l := NatToString(ctx.line);
    var s := l + ":" + NatToString(ctx.column + 1);
    assert s[|l|] == ':' && s[..|l|] == l;
    s
  }

  /** `InterpretError(err, ctx)`, with the exception it wraps given by its text. */
  datatype InterpretError = InterpretError(err: string, ctx: Option<Location>)

  /** `InterpretError.__str__`: the wrapped text, preceded by the location and `: `
      when there is one. */
  function Render(e: InterpretError): (s: string)
    ensures |e.err| <= |s| && s[|s| - |e.err|..] == e.err
    ensures s == e.err <==> e.ctx.None?
  {
    if e.ctx.None? then e.err else CtxLocation(e.ctx.value) + ": " + e.err
  }

  /** The line and column can be read back from a rendered error: the digits before
      the first `:`, and those between it and the `: ` that starts the wrapped text. */
  lemma RenderLocation(e: InterpretError) returns (i: nat, j: nat)
    requires e.ctx.Some?
    ensures i < j && j + 2 <= |Render(e)|
    ensures DigitsValue(Render(e)[..i]) == e.ctx.value.line && Render(e)[i] == ':'
    ensures DigitsValue(Render(e)[i + 1..j]) == e.ctx.value.column + 1
    ensures Render(e)[j..j + 2] == ": " && Render(e)[j + 2..] == e.err
  {
    var loc := e.ctx.value;
    var l, c := NatToString(loc.line), NatToString(loc.column + 1);
    var s := Render(e);
    var head := l + ":" + c;
    assert s == head + (": " + e.err);
    i, j := |l|, |l| + 1 + |c|;
    assert head[..i] == l && head[i] == ':' && head[i + 1..] == c;
    assert s[..j] == head;
    assert s[..i] == l && s[i + 1..j] == c;
    assert s[j..] == ": " + e.err;
    NatToStringValue(loc.line);
    NatToStringValue(loc.column + 1);
  }
}
