/** index.js: the first generation published under other names
    (`connectFormLayer`, `FormLayer`). Written out here as that file has
    it and proved to agree with the react-fieldset.js model on every input,
    so every property proved of `LegacyFieldSet` holds of it. */
module LegacyFormLayer {
  import opened Js
  import LegacyFieldSet

  /** Lines 5-25: the props the component wrapped by `connectFormLayer`
      receives. */
  function ConnectFormLayer(props: Props, ctx: Option<Props>, eval: (nat, Value) -> Value): (out: Props)
    ensures out == LegacyFieldSet.ConnectFieldSet(props, ctx, eval)
  {
    var prefix := if ctx.Some? && Truthy(Get(ctx.value, "name")) then ctx.value["name"] else Str("");
    var own := Get(props, "name");
    var name := if Truthy(own) then Str((if Truthy(prefix) then ToStr(prefix) + "." else "") + ToStr(own)) else prefix;
    var chosen :=
      if Truthy(Get(props, "readOnly")) then Get(props, "readOnly")
      else if ctx.Some? then Get(ctx.value, "readOnly")
      else Undefined;
    var readOnly := if chosen.Func? then eval(chosen.id, ContextValue(ctx)) else chosen;
    props["context" := ContextValue(ctx)]["readOnly" := readOnly]["name" := name]
  }

  /** Lines 28-37: the value `FormLayer.render` publishes. */
  function FormLayerRender(props: Props): (published: Props)
    requires LegacyFieldSet.SpreadableContext(props)
    ensures published == LegacyFieldSet.FieldSetRender(props)
  {
    var context := Get(props, "context");
    var newContext := Omit(props, {"name", "children", "context"});
    (if context.Obj? then context.fields else map[]) + newContext + map["name" := Get(props, "name")]
  }

  /** Line 40: the exported `FormLayer`, its render method behind
      `connectFormLayer`. */
  function FormLayer(props: Props, ctx: Option<Props>, eval: (nat, Value) -> Value): (published: Props)
    ensures published == LegacyFieldSet.FieldSet(props, ctx, eval)
  {
    FormLayerRender(ConnectFormLayer(props, ctx, eval))
  }
}
