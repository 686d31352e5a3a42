/** `TextBuilder`: renders an instance as `(TypeName name=value ...)`, one
    ` name=value` per registered property in the order they were added.
    A getter is the function from the instance to the text the
    `ValueMapper` makes of the property; `Class.getSimpleName()` is the
    builder's `typeName`. */
module TextBuilders {

  /** A `KeyValue`: a property's name and its getter. */
  datatype Property<!T> = Property(name: string, getter: T -> string)

  /** ` name=value` for one property of `instance`. */
  function Field<T>(p: Property<T>, instance: T): string
  {
    " " + p.name + "=" + p.getter(instance)
  }

  /** The properties' fields, in order. */
  function Fields<T>(properties: seq<Property<T>>, instance: T): string
  {
    if |properties| == 0 then ""
    else Fields(properties[..|properties| - 1], instance) + Field(properties[|properties| - 1], instance)
  }

  /** The text `toString(toText, instance)` returns. */
  function Text<T>(typeName: string, properties: seq<Property<T>>, instance: T): string
  {
    "(" + typeName + Fields(properties, instance) + ")"
  }

  class TextBuilder<T> {
    /** `type.getSimpleName()`. */
    const typeName: string

    /** `properties`, the list `add` appends to. */
    var properties: seq<Property<T>>

    /** `new TextBuilder(type)`: no properties yet. */
    constructor (typeName: string)
      ensures this.typeName == typeName && properties == []
    {
      this.typeName := typeName;
      properties := [];
    }

    /** `add(name, getter)`: the property goes at the end, and the builder
        itself is returned for chaining. */
    method Add(name: string, getter: T -> string) returns (r: TextBuilder<T>)
      modifies this
      ensures properties == old(properties) + [Property(name, getter)]
      ensures r == this
    {
      properties := properties + [Property(name, getter)];
      r := this;
    }

    /** `toString(toText, instance)`: `(`, the type name, each property's
        ` name=value`, and `)`, built up in a `StringBuilder`. */
    method ToString(instance: T) returns (s: string)
      ensures s == Text(typeName, properties, instance)
    {
      var sb := "(";
      sb := sb + typeName;
      var i := 0;
      while i < |properties|
        invariant 0 <= i <= |properties|
        invariant sb == "(" + typeName + Fields(properties[..i], instance)
      {
        assert properties[..i + 1][..i] == properties[..i];
        var p := properties[i];
        sb := sb + " " + p.name + "=" + p.getter(instance);
        i := i + 1;
      }
      assert properties[..i] == properties;
      sb := sb + ")";
      s := sb;
    }
  }

  /** The text opens with `(` and the type name and closes with `)`; with no
      properties it is `(TypeName)`. */
  lemma TextShape<T>(typeName: string, properties: seq<Property<T>>, instance: T)
    ensures var s := Text(typeName, properties, instance);
      && |s| >= |typeName| + 2
      && s[..|typeName| + 1] == "(" + typeName
      && s[|s| - 1] == ')'
    ensures properties == [] ==> Text(typeName, properties, instance) == "(" + typeName + ")"
  {
    var s := Text(typeName, properties, instance);
    assert s == "(" + typeName + (Fields(properties, instance) + ")");
  }

  /** Adding a property inserts its ` name=value` just before the closing
      `)`: the fields come out in insertion order. */
  lemma TextAdd<T>(typeName: string, properties: seq<Property<T>>, p: Property<T>, instance: T)
    ensures var before := Text(typeName, properties, instance);
      Text(typeName, properties + [p], instance)
        == before[..|before| - 1] + Field(p, instance) + ")"
  {
    var before := Text(typeName, properties, instance);
    assert (properties + [p])[..|properties|] == properties;
    assert before[..|before| - 1] == "(" + typeName + Fields(properties, instance);
  }

  /** The fields of two lists of properties, one after the other, are the
      fields of the joined list. */
  lemma {:induction false} FieldsAppend<T>(left: seq<Property<T>>, right: seq<Property<T>>, instance: T)
    ensures Fields(left + right, instance) == Fields(left, instance) + Fields(right, instance)
    decreases |right|
  {
    if |right| > 0 {
      var n := |right| - 1;
      assert (left + right)[..|left| + n] == left + right[..n];
      FieldsAppend(left, right[..n], instance);
    } else {
      assert left + right == left;
    }
  }
}
