/** src/useFieldset.js: the hook every component of the current generation
    uses to read the nearest Fieldset. The context channel is the explicit
    `fieldsetContext` parameter (`None`: no enclosing Fieldset, which is
    what `useContext` returns for a context created without a default);
    `prefixName`, imported from src/helpers, is a parameter because that
    module is not part of this model. */
module FieldsetHook {
  import opened Js

  /** The object `useFieldset` returns. Without an enclosing Fieldset it
      holds `fullName` only: `fieldsetProps` and `contextName` are `None`. */
  datatype FieldsetInfo = FieldsetInfo(fullName: Value, fieldsetProps: Option<Props>, contextName: Option<Value>)

  /** `{...fieldsetProps}`: an absent `fieldsetProps` spreads no key. */
  function InheritedProps(info: FieldsetInfo): Props
  {
    if info.fieldsetProps.Some? then info.fieldsetProps.value else map[]
  }

  /** Lines 5-16: `useFieldset(name)` under the context `fieldsetContext`. */
  function UseFieldset(name: Value, fieldsetContext: Option<Props>, prefixName: (Value, Value) -> Value): (info: FieldsetInfo)
    // no enclosing Fieldset: the name comes back unchanged, nothing else is returned
    ensures fieldsetContext.None? ==> info == FieldsetInfo(name, None, None)
    // contextName is the context's own name, absent or not
    ensures fieldsetContext.Some? ==> info.contextName == Some(Get(fieldsetContext.value, "name"))
    ensures fieldsetContext.Some? ==> info.fullName == prefixName(Get(fieldsetContext.value, "name"), name)
    // fieldsetProps is the context minus exactly its name
    ensures fieldsetContext.Some? ==> info.fieldsetProps.Some?
    ensures fieldsetContext.Some? ==> InheritedProps(info).Keys == fieldsetContext.value.Keys - {"name"}
    ensures fieldsetContext.Some? ==>
      forall k :: k in InheritedProps(info) ==> InheritedProps(info)[k] == fieldsetContext.value[k]
  {
    match fieldsetContext
    case Some(context) =>
      var contextName := Get(context, "name");
      var fieldsetProps := Omit(context, {"name"});
      FieldsetInfo(prefixName(contextName, name), Some(fieldsetProps), Some(contextName))
    case None =>
      FieldsetInfo(name, None, None)
  }

  /** The attributes `useFieldset` hands on never include a `name`, so
      spreading them cannot reintroduce the parent's name. */
  lemma InheritedPropsHaveNoName(name: Value, fieldsetContext: Option<Props>, prefixName: (Value, Value) -> Value)
    ensures "name" !in InheritedProps(UseFieldset(name, fieldsetContext, prefixName))
  {
  }
}
