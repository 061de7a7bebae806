/** react-fieldset.js: the first, class-based generation. A consumer wrapper
    (`connectFieldSet`) reads the nearest published context, composes the
    dotted name, resolves `readOnly` and hands both to the wrapped component;
    `FieldSet` is itself wrapped, so it republishes the parent context merged
    with its own (already resolved) props. The React context channel is the
    explicit `ctx` parameter (`None`: no enclosing Provider), and calling a
    predicate `readOnly` is the `eval` parameter applied to its id. */
module LegacyFieldSet {
  import opened Js
  import DottedPath

  /** `context && context.k`: `undefined` without a context. */
  function Inherited(ctx: Option<Props>, k: string): Value
  {
    if ctx.Some? then Get(ctx.value, k) else Undefined
  }

  /** `context && context.name || ''` (line 9). */
  function ContextName(ctx: Option<Props>): Value
  {
    if Truthy(Inherited(ctx, "name")) then Inherited(ctx, "name") else Str("")
  }

  /** Line 10: a truthy segment is appended to the base, after a dot only
      when the base is non-empty; a falsy segment leaves the base. */
  function JoinName(base: Value, segment: Value): Value
  {
    if Truthy(segment) then Str((if Truthy(base) then ToStr(base) + "." else "") + ToStr(segment))
    else base
  }

  /** Lines 12-13: `props.readOnly || context && context.readOnly`, then
      called with the context when it is a function. */
  function ResolveReadOnly(own: Value, ctx: Option<Props>, eval: (nat, Value) -> Value): Value
  {
    var readOnly := if Truthy(own) then own else Inherited(ctx, "readOnly");
    if readOnly.Func? then eval(readOnly.id, ContextValue(ctx)) else readOnly
  }

  /** Lines 5-25: the props the wrapped component receives when rendered
      with `props` under the context `ctx`. */
  function ConnectFieldSet(props: Props, ctx: Option<Props>, eval: (nat, Value) -> Value): (out: Props)
    // every caller prop is forwarded; only context, readOnly and name are overwritten
    ensures out.Keys == props.Keys + {"context", "readOnly", "name"}
    ensures forall k :: k in props && k != "context" && k != "readOnly" && k != "name" ==> out[k] == props[k]
    ensures out["context"] == ContextValue(ctx)
    // name: a falsy own name keeps the context name, or '' when that is missing or falsy
    ensures !Truthy(Get(props, "name")) ==>
      out["name"] == (if Truthy(Inherited(ctx, "name")) then Inherited(ctx, "name") else Str(""))
    // name: a truthy own name is joined to a non-empty context name by one dot
    ensures Truthy(Get(props, "name")) && Truthy(Inherited(ctx, "name")) ==>
      out["name"] == Str(ToStr(Inherited(ctx, "name")) + "." + ToStr(Get(props, "name")))
    // name: a truthy own name stands alone under an empty or missing context name
    ensures Truthy(Get(props, "name")) && !Truthy(Inherited(ctx, "name")) ==>
      out["name"] == Str(ToStr(Get(props, "name")))
    // readOnly: a truthy own value wins; a function is called once with the received context
    ensures Truthy(Get(props, "readOnly")) && !Get(props, "readOnly").Func? ==>
      out["readOnly"] == Get(props, "readOnly")
    ensures Get(props, "readOnly").Func? ==>
      out["readOnly"] == eval(Get(props, "readOnly").id, ContextValue(ctx))
    // readOnly: a falsy own value (explicit false included) falls through to the inherited one
    ensures !Truthy(Get(props, "readOnly")) && !Inherited(ctx, "readOnly").Func? ==>
      out["readOnly"] == Inherited(ctx, "readOnly")
    ensures !Truthy(Get(props, "readOnly")) && Inherited(ctx, "readOnly").Func? ==>
      out["readOnly"] == eval(Inherited(ctx, "readOnly").id, ContextValue(ctx))
  {
    var name := JoinName(ContextName(ctx), Get(props, "name"));
    assert "" + ToStr(Get(props, "name")) == ToStr(Get(props, "name"));
    var readOnly := ResolveReadOnly(Get(props, "readOnly"), ctx, eval);
    props["context" := ContextValue(ctx)]["readOnly" := readOnly]["name" := name]
  }

  /** Whether a `context` prop can be spread as the render method does: the
      wrapper always passes an object or `undefined`. */
  predicate SpreadableContext(props: Props)
  {
    Get(props, "context").Obj? || Get(props, "context").Undefined?
  }

  /** The own keys of the `context` prop, as `{...context}` contributes them. */
  function ParentOf(props: Props): Props
    requires SpreadableContext(props)
  {
    if Get(props, "context").Obj? then Get(props, "context").fields else map[]
  }

  /** Lines 28-37: the value `FieldSet.render` publishes,
      `{...context, ...newContext, name}`. */
  function FieldSetRender(props: Props): (published: Props)
    requires SpreadableContext(props)
    ensures published.Keys == ParentOf(props).Keys + (props.Keys - {"children", "context"}) + {"name"}
    ensures published["name"] == Get(props, "name")
    // own props shadow the inherited ones, shallowly
    ensures forall k :: k in props && k != "name" && k != "children" && k != "context" ==>
      published[k] == props[k]
    // inherited keys survive where no own prop replaces them
    ensures forall k :: k in ParentOf(props) && k != "name" && (k !in props || k == "children" || k == "context") ==>
      published[k] == ParentOf(props)[k]
  {
    var newContext := Omit(props, {"name", "children", "context"});
    ParentOf(props) + newContext + map["name" := Get(props, "name")]
  }

  /** Line 40: the exported `FieldSet`, the render method behind the
      consumer wrapper. Its published context carries the name composed and
      the readOnly resolved by that wrapper, never the raw own values. */
  function FieldSet(props: Props, ctx: Option<Props>, eval: (nat, Value) -> Value): (published: Props)
    ensures "name" in published && published["name"] == ConnectFieldSet(props, ctx, eval)["name"]
    ensures "readOnly" in published && published["readOnly"] == ConnectFieldSet(props, ctx, eval)["readOnly"]
  {
    FieldSetRender(ConnectFieldSet(props, ctx, eval))
  }

  /** The rest of what `FieldSet` publishes: the parent context, shadowed
      shallowly by the own props other than `children` and `context`. */
  lemma FieldSetMerge(props: Props, ctx: Option<Props>, eval: (nat, Value) -> Value)
    ensures FieldSet(props, ctx, eval).Keys == SpreadContext(ctx).Keys + (props.Keys - {"children", "context"}) + {"name", "readOnly"}
    ensures forall k :: k in props && k != "name" && k != "readOnly" && k != "children" && k != "context" ==>
      FieldSet(props, ctx, eval)[k] == props[k]
    ensures forall k ::
      (k in SpreadContext(ctx) && k != "name" && k != "readOnly" && (k !in props || k == "children" || k == "context"))
      ==> FieldSet(props, ctx, eval)[k] == SpreadContext(ctx)[k]
  {
    var received := ConnectFieldSet(props, ctx, eval);
    assert ParentOf(received) == SpreadContext(ctx);
  }

  /** The context visible inside the innermost of nested FieldSets whose
      props are `decls`, outermost first. */
  function Nest(decls: seq<Props>, eval: (nat, Value) -> Value): Option<Props>
    decreases |decls|
  {
    if decls == [] then None
    else Some(FieldSet(decls[|decls| - 1], Nest(decls[..|decls| - 1], eval), eval))
  }

  /** A declared name that is a string, or absent, or otherwise falsy. */
  predicate PlainName(props: Props)
  {
    Get(props, "name").Str? || !Truthy(Get(props, "name"))
  }

  /** The segments that contribute to the path: the non-empty string names. */
  function Segments(decls: seq<Props>): (segs: seq<string>)
    ensures forall i :: 0 <= i < |segs| ==> segs[i] != ""
    decreases |decls|
  {
    if decls == [] then []
    else
      var name := Get(decls[|decls| - 1], "name");
      Segments(decls[..|decls| - 1]) + (if name.Str? && name.s != "" then [name.s] else [])
  }

  /** Nested FieldSets build the dotted path of their non-empty segments:
      one dot between two segments, none before the first, and unnamed
      FieldSets add nothing. */
  lemma {:induction false} NestedName(decls: seq<Props>, eval: (nat, Value) -> Value)
    requires |decls| >= 1
    requires forall i :: 0 <= i < |decls| ==> PlainName(decls[i])
    ensures Nest(decls, eval).Some?
    ensures Nest(decls, eval).value["name"] == Str(DottedPath.Join(Segments(decls)))
    decreases |decls|
  {
    var init, last := decls[..|decls| - 1], decls[|decls| - 1];
    var name := Get(last, "name");
    var segs := Segments(init);
    var parent := Nest(init, eval);
    if init == [] {
      assert parent == None;
    } else {
      NestedName(init, eval);
      assert Inherited(parent, "name") == Str(DottedPath.Join(segs));
      assert segs != [] ==> DottedPath.Join(segs) != "";
    }
    assert Inherited(parent, "name") == Str(DottedPath.Join(segs)) || (segs == [] && !Truthy(Inherited(parent, "name")));
    if Truthy(name) {
      DottedPath.JoinSnoc(segs, name.s);
      assert Segments(decls) == segs + [name.s];
    } else {
      assert Segments(decls) == segs;
    }
  }

  /** When every FieldSet is named, the contributing segments are exactly
      the names. */
  lemma {:induction false} SegmentsAllNamed(decls: seq<Props>, segs: seq<string>)
    requires |decls| == |segs|
    requires forall i :: 0 <= i < |decls| ==> segs[i] != "" && Get(decls[i], "name") == Str(segs[i])
    ensures Segments(decls) == segs
    decreases |decls|
  {
    if decls != [] {
      SegmentsAllNamed(decls[..|decls| - 1], segs[..|segs| - 1]);
      assert segs[..|segs| - 1] + [segs[|segs| - 1]] == segs;
    }
  }

  /** Nested FieldSets each named by a non-empty dot-free segment publish a
      path that splits back into exactly those segments: no leading dot, no
      doubled dot, no segment lost. */
  lemma NestedNameSplitsBack(decls: seq<Props>, segs: seq<string>, eval: (nat, Value) -> Value)
    requires |decls| == |segs| >= 1
    requires forall i :: 0 <= i < |decls| ==> segs[i] != "" && DottedPath.DotFree(segs[i]) && Get(decls[i], "name") == Str(segs[i])
    ensures Nest(decls, eval).Some?
    ensures Nest(decls, eval).value["name"] == Str(DottedPath.Join(segs))
    ensures DottedPath.Split(DottedPath.Join(segs)) == segs
    ensures var leaf := DottedPath.Join(segs);
      leaf != "" && leaf[0] != '.' && leaf[|leaf| - 1] != '.' &&
      forall i :: 0 <= i < |leaf| - 1 ==> !(leaf[i] == '.' && leaf[i + 1] == '.')
  {
    SegmentsAllNamed(decls, segs);
    NestedName(decls, eval);
    DottedPath.SplitJoin(segs);
    DottedPath.JoinHasNoStrayDot(segs);
  }

  /** One step of inheritance: a FieldSet whose own readOnly is falsy
      republishes an inherited readOnly that is not a function. */
  lemma FieldSetKeepsReadOnly(props: Props, ctx: Option<Props>, eval: (nat, Value) -> Value)
    requires !Truthy(Get(props, "readOnly")) && !Inherited(ctx, "readOnly").Func?
    ensures FieldSet(props, ctx, eval)["readOnly"] == Inherited(ctx, "readOnly")
  {
  }

  /** An attribute scope `{readOnly: true}` around a scope that leaves
      `readOnly` unset hands `true` on: a resolved value that is not a
      function passes through every inner FieldSet whose own readOnly is
      falsy. */
  lemma {:induction false} ReadOnlyInherited(decls: seq<Props>, i: nat, eval: (nat, Value) -> Value)
    requires i < |decls|
    requires forall j :: i < j < |decls| ==> !Truthy(Get(decls[j], "readOnly"))
    requires !Nest(decls[..i + 1], eval).value["readOnly"].Func?
    ensures Nest(decls, eval).Some?
    ensures Nest(decls, eval).value["readOnly"] == Nest(decls[..i + 1], eval).value["readOnly"]
    decreases |decls|
  {
    if i < |decls| - 1 {
      var init, last := decls[..|decls| - 1], decls[|decls| - 1];
      assert init[..i + 1] == decls[..i + 1];
      ReadOnlyInherited(init, i, eval);
      var parent := Nest(init, eval);
      assert "readOnly" in parent.value;
      FieldSetKeepsReadOnly(last, parent, eval);
    } else {
      assert decls[..i + 1] == decls;
    }
  }

  /** An explicit `readOnly: false` does not override an inherited `true`:
      `||` treats it as unset. */
  lemma ExplicitFalseFallsThrough(props: Props, ctx: Option<Props>, eval: (nat, Value) -> Value)
    requires Get(props, "readOnly") == Bool(false)
    requires Inherited(ctx, "readOnly") == Bool(true)
    ensures FieldSet(props, ctx, eval)["readOnly"] == Bool(true)
  {
  }

  /** A predicate `readOnly` is called where its FieldSet is rendered, with
      that FieldSet's parent context; descendants inherit the result, never
      the predicate. */
  lemma PredicateResolvedAtDeclaration(props: Props, ctx: Option<Props>, eval: (nat, Value) -> Value, id: nat, source: string)
    requires Get(props, "readOnly") == Func(id, source)
    ensures FieldSet(props, ctx, eval)["readOnly"] == eval(id, ContextValue(ctx))
  {
  }

  /** A leaf connected with name `c` inside FieldSets named `a` and then
      `b` is named `a.b.c`. */
  lemma LeafNameExample(outer: Props, inner: Props, leaf: Props, a: string, b: string, c: string, eval: (nat, Value) -> Value)
    requires a != "" && b != "" && c != ""
    requires Get(outer, "name") == Str(a) && Get(inner, "name") == Str(b) && Get(leaf, "name") == Str(c)
    ensures ConnectFieldSet(leaf, Nest([outer, inner], eval), eval)["name"] == Str(a + "." + b + "." + c)
  {
    var decls := [outer, inner];
    NestedName(decls, eval);
    assert decls[..1] == [outer];
    assert [outer][..0] == [];
    assert Segments([outer]) == [a];
    assert Segments(decls) == [a] + [b];
    assert DottedPath.Join([a, b]) == a + "." + b;
  }
}
