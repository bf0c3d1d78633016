/**
 * The object graph a patch is applied to, and the JSON values a patch
 * document carries.  Reflection (GetProperty, GetValue, SetValue, CanWrite)
 * becomes lookups and functional updates on these values.
 */
module ObjectModel {
  import opened Wrappers

  /** The static type a property or a list element is declared with. */
  datatype Type = TInt | TString | TClass(name: string) | TList(elem: Type)

  /** `int` is the one value type of the model: it has no null. */
  predicate IsValueType(t: Type) {
    t.TInt?
  }

  /**
   * A value in the target graph.  A list knows its element type, as a
   * `List<T>` does at run time; an object maps each of its properties to
   * the property's current value, declared type and whether it has a setter.
   */
  datatype Value =
    | Null
    | Int(i: int)
    | Str(s: string)
    | List(elem: Type, items: seq<Value>)
    | Obj(cls: string, fields: map<string, Field>)

  datatype Field = Field(value: Value, declared: Type, settable: bool)

  /** A dynamic JSON value as the serializer decodes it. */
  datatype Json =
    | JNull
    | JBool(b: bool)
    | JNumber(n: int)
    | JString(s: string)
    | JArray(elements: seq<Json>)
    | JObject(members: map<string, Json>)

  /** One step from a value to a value inside it: a property or a list index. */
  datatype Step = Prop(name: string) | Index(i: int)

  /** `obj.GetType().GetProperty(name)`: only objects have properties here. */
  function GetProperty(v: Value, name: string): Option<Field> {
    if v.Obj? && name in v.fields then Some(v.fields[name]) else None
  }

  /** `obj is IEnumerable && !(obj is string)`: only lists qualify. */
  predicate IsCollectionType(v: Value) {
    v.List?
  }

  /** What `SetValue(obj, null)` leaves in a property declared with type `t`. */
  function DefaultValue(t: Type): Value {
    if IsValueType(t) then Int(0) else Null
  }

  /** The value reached from `v` by following `steps`, if every step exists. */
  function Get(v: Value, steps: seq<Step>): Option<Value>
    decreases |steps|
  {
    if steps == [] then Some(v)
    else match steps[0]
      case Prop(n) =>
        if v.Obj? && n in v.fields then Get(v.fields[n].value, steps[1..]) else None
      case Index(i) =>
        if v.List? && 0 <= i < |v.items| then Get(v.items[i], steps[1..]) else None
  }

  /** `v` with the value at `steps` replaced by `x`; `v` itself when `steps` leads nowhere. */
  function Set(v: Value, steps: seq<Step>, x: Value): Value
    decreases |steps|
  {
    if steps == [] then x
    else match steps[0]
      case Prop(n) =>
        if v.Obj? && n in v.fields
        then v.(fields := v.fields[n := v.fields[n].(value := Set(v.fields[n].value, steps[1..], x))])
        else v
      case Index(i) =>
        if v.List? && 0 <= i < |v.items|
        then v.(items := v.items[i := Set(v.items[i], steps[1..], x)])
        else v
  }

  /** Following `p + q` is following `p`, then `q` from where `p` led. */
  lemma {:induction false} GetAppend(v: Value, p: seq<Step>, q: seq<Step>)
    ensures Get(v, p + q) == (match Get(v, p) case None => None case Some(w) => Get(w, q))
    decreases |p|
  {
    if p != [] {
      assert (p + q)[0] == p[0] && (p + q)[1..] == p[1..] + q;
      match p[0]
      case Prop(n) =>
        if v.Obj? && n in v.fields { GetAppend(v.fields[n].value, p[1..], q); }
      case Index(i) =>
        if v.List? && 0 <= i < |v.items| { GetAppend(v.items[i], p[1..], q); }
    } else {
      assert p + q == q;
    }
  }

  /** After a write at an existing location, that location holds the written value. */
  lemma {:induction false} GetSetSame(v: Value, p: seq<Step>, x: Value)
    requires Get(v, p).Some?
    ensures Get(Set(v, p, x), p) == Some(x)
    decreases |p|
  {
    if p != [] {
      match p[0]
      case Prop(n) => GetSetSame(v.fields[n].value, p[1..], x);
      case Index(i) => GetSetSame(v.items[i], p[1..], x);
    }
  }

  /** A write at a location that does not exist changes nothing. */
  lemma {:induction false} SetMissing(v: Value, p: seq<Step>, x: Value)
    requires Get(v, p).None?
    ensures Set(v, p, x) == v
    decreases |p|
  {
    match p[0]
    case Prop(n) =>
      if v.Obj? && n in v.fields { SetMissing(v.fields[n].value, p[1..], x); }
    case Index(i) =>
      if v.List? && 0 <= i < |v.items| { SetMissing(v.items[i], p[1..], x); }
  }

  /** A write leaves every location that is neither above nor below it unchanged. */
  lemma {:induction false} GetSetDisjoint(v: Value, p: seq<Step>, q: seq<Step>, x: Value)
    requires !(p <= q) && !(q <= p)
    ensures Get(Set(v, p, x), q) == Get(v, q)
    decreases |p|
  {
    assert p != [] && q != [];
    if p[0] != q[0] {
      match p[0]
      case Prop(n) =>
        if v.Obj? && n in v.fields {
          match q[0]
          case Prop(m) =>
          case Index(j) =>
        }
      case Index(i) =>
        if v.List? && 0 <= i < |v.items| {
          match q[0]
          case Prop(m) =>
          case Index(j) =>
        }
    } else {
      assert !(p[1..] <= q[1..]) && !(q[1..] <= p[1..]);
      match p[0]
      case Prop(n) =>
        if v.Obj? && n in v.fields { GetSetDisjoint(v.fields[n].value, p[1..], q[1..], x); }
      case Index(i) =>
        if v.List? && 0 <= i < |v.items| { GetSetDisjoint(v.items[i], p[1..], q[1..], x); }
    }
  }

  /** Below a written location, the graph is what was written. */
  lemma {:induction false} GetSetBelow(v: Value, p: seq<Step>, q: seq<Step>, x: Value)
    requires Get(v, p).Some?
    ensures Get(Set(v, p, x), p + q) == Get(x, q)
  {
    GetAppend(Set(v, p, x), p, q);
    GetSetSame(v, p, x);
  }

  /** Writing at `p + q` is writing, at `p`, the value found there with `q` written inside it. */
  lemma {:induction false} SetAppend(v: Value, p: seq<Step>, q: seq<Step>, x: Value)
    requires Get(v, p).Some?
    ensures Set(v, p + q, x) == Set(v, p, Set(Get(v, p).value, q, x))
    decreases |p|
  {
    if p != [] {
      assert (p + q)[0] == p[0] && (p + q)[1..] == p[1..] + q;
      match p[0]
      case Prop(n) => SetAppend(v.fields[n].value, p[1..], q, x);
      case Index(i) => SetAppend(v.items[i], p[1..], q, x);
    } else {
      assert p + q == q;
    }
  }

  /** Assigning a property twice keeps the second value. */
  lemma FieldTwice(v: Value, n: string, a: Value, b: Value)
    requires v.Obj? && n in v.fields
    ensures var w := v.(fields := v.fields[n := v.fields[n].(value := a)]);
      w.(fields := w.fields[n := w.fields[n].(value := b)]) == v.(fields := v.fields[n := v.fields[n].(value := b)])
  {
  }

  /** Assigning a list element twice keeps the second value. */
  lemma ItemTwice(v: Value, i: int, a: Value, b: Value)
    requires v.List? && 0 <= i < |v.items|
    ensures var w := v.(items := v.items[i := a]);
      w.(items := w.items[i := b]) == v.(items := v.items[i := b])
  {
  }

  /** A second write at the same location overrides the first. */
  lemma {:induction false} SetSet(v: Value, p: seq<Step>, x: Value, y: Value)
    ensures Set(Set(v, p, x), p, y) == Set(v, p, y)
    decreases |p|
  {
    if p != [] {
      match p[0]
      case Prop(n) =>
        if v.Obj? && n in v.fields {
          SetSet(v.fields[n].value, p[1..], x, y);
          FieldTwice(v, n, Set(v.fields[n].value, p[1..], x), Set(v.fields[n].value, p[1..], y));
        }
      case Index(i) =>
        if v.List? && 0 <= i < |v.items| {
          SetSet(v.items[i], p[1..], x, y);
          ItemTwice(v, i, Set(v.items[i], p[1..], x), Set(v.items[i], p[1..], y));
        }
    }
  }

  /** Writing back the value a location already holds changes nothing. */
  lemma {:induction false} SetGet(v: Value, p: seq<Step>, w: Value)
    requires Get(v, p) == Some(w)
    ensures Set(v, p, w) == v
    decreases |p|
  {
    if p != [] {
      match p[0]
      case Prop(n) =>
        SetGet(v.fields[n].value, p[1..], w);
        assert v.fields[n := v.fields[n]] == v.fields;
      case Index(i) =>
        SetGet(v.items[i], p[1..], w);
        assert v.items[i := v.items[i]] == v.items;
    }
  }

  /** The property `n` of the object reached by `steps`: its value, declared type and setter. */
  function FieldAt(v: Value, steps: seq<Step>, n: string): Option<Field> {
    match Get(v, steps)
    case None => None
    case Some(t) => GetProperty(t, n)
  }

  /** A write that does not go through property `n` of `v` leaves that property alone. */
  lemma SetKeepsOwnField(v: Value, n: string, p: seq<Step>, x: Value)
    requires p != [] && p[0] != Prop(n)
    ensures GetProperty(Set(v, p, x), n) == GetProperty(v, n)
  {
  }

  /** Looking up a property below a first step is looking it up from the value that step reaches. */
  lemma FieldAtThrough(v: Value, s: Step, q: seq<Step>, n: string)
    ensures FieldAt(v, [s] + q, n) == (match Get(v, [s]) case None => None case Some(c) => FieldAt(c, q, n))
  {
    GetAppend(v, [s], q);
  }

  /** Two step sequences that part after a common first step still part after it is dropped. */
  lemma ApartTail(p: seq<Step>, q: seq<Step>)
    requires !(p <= q) && !(q <= p) && p[0] == q[0]
    ensures !(p[1..] <= q[1..]) && !(q[1..] <= p[1..])
  {
  }

  /**
   * A write apart from a property leaves that property as it was, with its
   * declared type and setter, even when the write goes through the object
   * that holds it.
   */
  lemma {:induction false} SetKeepsField(v: Value, q: seq<Step>, n: string, p: seq<Step>, x: Value)
    requires !(p <= q + [Prop(n)]) && !(q + [Prop(n)] <= p)
    ensures FieldAt(Set(v, p, x), q, n) == FieldAt(v, q, n)
    decreases |q|
  {
    var r := q + [Prop(n)];
    assert p != [] && r[0] == (if q == [] then Prop(n) else q[0]);
    if q == [] {
      SetKeepsOwnField(v, n, p, x);
    } else if p[0] != q[0] {
      GetSetDisjoint(v, p, q, x);
    } else {
      var s, p', q' := p[0], p[1..], q[1..];
      assert p == [s] + p' && q == [s] + q' && r[1..] == q' + [Prop(n)];
      ApartTail(p, r);
      FieldAtThrough(v, s, q', n);
      if Get(v, [s]).None? {
        GetAppend(v, [s], p');
        SetMissing(v, p, x);
      } else {
        var c := Get(v, [s]).value;
        var w := Set(v, [s], Set(c, p', x));
        SetAppend(v, [s], p', x);
        GetSetSame(v, [s], Set(c, p', x));
        FieldAtThrough(w, s, q', n);
        SetKeepsField(c, q', n, p', x);
      }
    }
  }

  /** The caller's target, which a patch mutates in place. */
  class Graph {
    var root: Value

    constructor (root: Value)
      ensures this.root == root
    {
      this.root := root;
    }
  }
}
