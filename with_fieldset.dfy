/** src/withFieldset.js: higher-order components that read the nearest
    Fieldset once, through `useFieldset(props.name)`, and render the wrapped
    component. The model gives the props the wrapped component receives. */
module FieldsetWrappers {
  import opened Js
  import FieldsetHook

  /** Lines 4-8: `withFieldset(Inner)` rendered with `props`: the inherited
      attributes, then the caller's props, then `name` as the full name. */
  function WithFieldset(props: Props, ctx: Option<Props>, prefixName: (Value, Value) -> Value): (forwarded: Props)
    ensures forwarded.Keys == SpreadContext(ctx).Keys + props.Keys + {"name"}
    ensures ctx.None? ==> forwarded["name"] == Get(props, "name")
    ensures ctx.Some? ==> forwarded["name"] == prefixName(Get(ctx.value, "name"), Get(props, "name"))
    // caller props win over inherited attributes
    ensures forall k :: k in props && k != "name" ==> forwarded[k] == props[k]
    ensures forall k :: k in SpreadContext(ctx) && k !in props && k != "name" ==> forwarded[k] == SpreadContext(ctx)[k]
  {
    var info := FieldsetHook.UseFieldset(Get(props, "name"), ctx, prefixName);
    (FieldsetHook.InheritedProps(info) + props)["name" := info.fullName]
  }

  /** Lines 10-15: the deprecated `withFullName(Inner)` rendered with
      `props`: the caller's props untouched, local `name` included, plus
      `fullName`; no inherited attribute. */
  function WithFullName(props: Props, ctx: Option<Props>, prefixName: (Value, Value) -> Value): (forwarded: Props)
    ensures forwarded.Keys == props.Keys + {"fullName"}
    ensures forall k :: k in props && k != "fullName" ==> forwarded[k] == props[k]
    ensures ctx.None? ==> forwarded["fullName"] == Get(props, "name")
    ensures ctx.Some? ==> forwarded["fullName"] == prefixName(Get(ctx.value, "name"), Get(props, "name"))
  {
    var info := FieldsetHook.UseFieldset(Get(props, "name"), ctx, prefixName);
    props["fullName" := info.fullName]
  }

  /** Both wrappers compute the same full name: `withFullName` hands as
      `fullName` what `withFieldset` hands as `name`. */
  lemma FullNameAgrees(props: Props, ctx: Option<Props>, prefixName: (Value, Value) -> Value)
    ensures WithFullName(props, ctx, prefixName)["fullName"] == WithFieldset(props, ctx, prefixName)["name"]
  {
  }

  /** Outside every Fieldset, `withFieldset` forwards the caller's props as
      they read: a missing `name` still reads `undefined`. */
  lemma WithFieldsetOutsideFieldset(props: Props, prefixName: (Value, Value) -> Value)
    ensures forall k :: Get(WithFieldset(props, None, prefixName), k) == Get(props, k)
  {
  }
}
