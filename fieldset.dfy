/** src/Fieldset.js: the current generation's scope node. `Fieldset` reads
    the nearest Fieldset through `useFieldset`, and `FieldsetInner`
    publishes `{...fieldsetProps, ...otherProps, name: fullName}` (without
    `children`) to its subtree. `readOnly` is an ordinary attribute here.
    The channel is the explicit `ctx` parameter and `prefixName` a
    parameter, as in `FieldsetHook`. */
module FieldsetComponent {
  import opened Js
  import FieldsetHook
  import LegacyFieldSet
  import DottedPath

  /** Lines 15-17: the value `FieldsetInner` provides, its props without
      `children`. */
  function FieldsetInner(props: Props): (value: Props)
    ensures value.Keys == props.Keys - {"children"}
    ensures forall k :: k in value ==> value[k] == props[k]
  {
    Omit(props, {"children"})
  }

  /** Lines 5-13 with 15-17: the value a `Fieldset` with `props` publishes
      under the context `ctx`. */
  function Fieldset(props: Props, ctx: Option<Props>, prefixName: (Value, Value) -> Value): (published: Props)
    ensures published.Keys == (SpreadContext(ctx).Keys + props.Keys + {"name"}) - {"children"}
    // the published name is the full name, never the raw segment or the parent's name
    ensures ctx.None? ==> published["name"] == Get(props, "name")
    ensures ctx.Some? ==> published["name"] == prefixName(Get(ctx.value, "name"), Get(props, "name"))
    // an own key replaces the inherited one, whatever its value
    ensures forall k :: k in props && k != "name" && k != "children" ==> published[k] == props[k]
    // other inherited keys are passed on as they are
    ensures forall k :: k in SpreadContext(ctx) && k !in props && k != "name" && k != "children" ==>
      published[k] == SpreadContext(ctx)[k]
  {
    var name := Get(props, "name");
    var otherProps := Omit(props, {"name", "children"});
    var info := FieldsetHook.UseFieldset(name, ctx, prefixName);
    FieldsetInner((FieldsetHook.InheritedProps(info) + otherProps)["name" := info.fullName]["children" := Get(props, "children")])
  }

  /** `readOnly` is never evaluated: an own value, a predicate or an
      explicit `false` included, is published as given, and without one the
      inherited value is. */
  lemma ReadOnlyPassedThrough(props: Props, ctx: Option<Props>, prefixName: (Value, Value) -> Value)
    ensures "readOnly" in props ==> Fieldset(props, ctx, prefixName)["readOnly"] == props["readOnly"]
    ensures "readOnly" !in props && ctx.Some? && "readOnly" in ctx.value ==>
      Fieldset(props, ctx, prefixName)["readOnly"] == ctx.value["readOnly"]
    ensures "readOnly" !in props && (ctx.None? || "readOnly" !in ctx.value) ==>
      "readOnly" !in Fieldset(props, ctx, prefixName)
  {
  }

  /** An outermost Fieldset publishes its own props, `children` aside, with
      the name it was given. */
  lemma OutermostFieldset(props: Props, prefixName: (Value, Value) -> Value)
    ensures Fieldset(props, None, prefixName) == Omit(props, {"children"})["name" := Get(props, "name")]
  {
  }

  /** The context visible inside the innermost of nested Fieldsets whose
      props are `decls`, outermost first. */
  function Nest(decls: seq<Props>, prefixName: (Value, Value) -> Value): Option<Props>
    decreases |decls|
  {
    if decls == [] then None
    else Some(Fieldset(decls[|decls| - 1], Nest(decls[..|decls| - 1], prefixName), prefixName))
  }

  /** The names the Fieldsets were given, outermost first. */
  function Names(decls: seq<Props>): (names: seq<Value>)
    ensures |names| == |decls|
    ensures forall i :: 0 <= i < |decls| ==> names[i] == Get(decls[i], "name")
  {
    seq(|decls|, i requires 0 <= i < |decls| => Get(decls[i], "name"))
  }

  /** Left fold of `prefixName` over `names`, starting from `acc`. */
  function FoldNames(acc: Value, names: seq<Value>, prefixName: (Value, Value) -> Value): Value
    decreases |names|
  {
    if names == [] then acc else FoldNames(prefixName(acc, names[0]), names[1..], prefixName)
  }

  lemma {:induction false} FoldNamesSnoc(acc: Value, names: seq<Value>, n: Value, prefixName: (Value, Value) -> Value)
    ensures FoldNames(acc, names + [n], prefixName) == prefixName(FoldNames(acc, names, prefixName), n)
    decreases |names|
  {
    if names != [] {
      assert (names + [n])[1..] == names[1..] + [n];
      FoldNamesSnoc(prefixName(acc, names[0]), names[1..], n, prefixName);
    }
  }

  /** Nested Fieldsets publish the left fold of `prefixName` over their
      names: the outermost name as given, then each inner segment prefixed
      by what its parent published. */
  lemma {:induction false} NestedNameIsLeftFold(decls: seq<Props>, prefixName: (Value, Value) -> Value)
    requires |decls| >= 1
    ensures Nest(decls, prefixName).Some?
    ensures Nest(decls, prefixName).value["name"] == FoldNames(Get(decls[0], "name"), Names(decls)[1..], prefixName)
    decreases |decls|
  {
    var init, last := decls[..|decls| - 1], decls[|decls| - 1];
    if |decls| > 1 {
      NestedNameIsLeftFold(init, prefixName);
      assert Names(decls)[1..] == Names(init)[1..] + [Get(last, "name")];
      FoldNamesSnoc(Get(decls[0], "name"), Names(init)[1..], Get(last, "name"), prefixName);
    }
  }

  /** Every attribute other than `name` and `children` reaches the inside of
      nested Fieldsets from the innermost one that declares it. */
  lemma {:induction false} AttributeFromNearestScope(decls: seq<Props>, i: nat, k: string, prefixName: (Value, Value) -> Value)
    requires i < |decls| && k != "name" && k != "children"
    requires k in decls[i]
    requires forall j :: i < j < |decls| ==> k !in decls[j]
    ensures Nest(decls, prefixName).Some?
    ensures k in Nest(decls, prefixName).value && Nest(decls, prefixName).value[k] == decls[i][k]
    decreases |decls|
  {
    if i < |decls| - 1 {
      var init := decls[..|decls| - 1];
      AttributeFromNearestScope(init, i, k, prefixName);
    }
  }

  /** A candidate for `prefixName`: the join rule of the first generation
      (react-fieldset.js, lines 9-10). It is an assumption about src/helpers,
      which is not part of this model. */
  function JoinRulePrefix(contextName: Value, name: Value): Value
  {
    LegacyFieldSet.JoinName(if Truthy(contextName) then contextName else Str(""), name)
  }

  /** Under that assumption, nested Fieldsets named by non-empty segments
      publish the segments joined by single dots. */
  lemma {:induction false} NestedNameUnderJoinRule(decls: seq<Props>, segs: seq<string>)
    requires |decls| == |segs| >= 1
    requires forall i :: 0 <= i < |decls| ==> segs[i] != "" && Get(decls[i], "name") == Str(segs[i])
    ensures Nest(decls, JoinRulePrefix).Some?
    ensures Nest(decls, JoinRulePrefix).value["name"] == Str(DottedPath.Join(segs))
    decreases |decls|
  {
    if |decls| > 1 {
      var init, initSegs, s := decls[..|decls| - 1], segs[..|segs| - 1], segs[|segs| - 1];
      NestedNameUnderJoinRule(init, initSegs);
      var joined := DottedPath.Join(initSegs);
      assert joined != "" by {
        assert initSegs[0] != "";
      }
      assert JoinRulePrefix(Str(joined), Str(s)) == Str(joined + "." + s);
      DottedPath.JoinSnoc(initSegs, s);
      assert initSegs + [s] == segs;
    }
  }
}
