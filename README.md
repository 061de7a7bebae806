# react-fieldset scope composition, modelled in Dafny

react-fieldset lets nested "fieldset" scopes in a React tree build up a dotted field name, a read-only flag and shared attributes. Every leaf input reads these from the nearest enclosing scope. This project models the pure logic under the React context channel, in both generations of the library:

- **First generation** (`react-fieldset.js`, copied in `index.js` under the names `connectFormLayer` / `FormLayer`). The consumer wrapper `connectFieldSet` joins the context name and the own `name` with a dot. It resolves `readOnly` as `props.readOnly || context.readOnly` and calls the result when it is a function. `FieldSet` is itself wrapped, so it publishes `{...parentContext, ...ownProps, name}` with the composed name and the already-resolved `readOnly`.
- **Current generation** (`src/`). `useFieldset(name)` splits the context into its `name` and the other attributes and calls `prefixName`. `Fieldset` publishes `{...inherited, ...own, name: fullName}`. `withFieldset` and `withFullName` compute the props that the wrapped component receives. Here `readOnly` is an ordinary attribute and is never resolved.

Modelling choices:

- JavaScript values are `Js.Value`: strings, booleans, `undefined`, functions (an id and their source text), plain objects, and other values (given by their string conversion and their truthiness). Truthiness (`Js.Truthy`) and the string conversion done by `+` (`Js.ToStr`) are written out.
- The React context is an explicit `Option<Props>` parameter. `None` means that no Provider encloses the component; a context created without a default reads as `undefined`.
- Calling a `readOnly` predicate is an explicit parameter `eval: (nat, Value) -> Value`, applied to the function's id and its argument.
- `prefixName` (in `src/helpers`) is an uninterpreted parameter `prefixName: (Value, Value) -> Value`.
- A tree of nested scopes is a root-to-leaf list of the scopes' props. `Nest` folds the list into the context visible inside the innermost scope.
- `DottedPath.Join` and `DottedPath.Split` are reference definitions of dotted paths. The chain lemmas are stated against them.

Where the documented intent and the code differ, the model follows the code:

- First generation: an explicit `readOnly: false` does not override an inherited `true`, because `||` treats it as unset (`LegacyFieldSet.ExplicitFalseFallsThrough`).
- First generation: a predicate `readOnly` is called where its own FieldSet renders, with that FieldSet's parent context. Descendants inherit the result, never the predicate (`LegacyFieldSet.PredicateResolvedAtDeclaration`). Resolution is not deferred to the leaf.
- Current generation: `readOnly` is never resolved. With no enclosing Fieldset, `useFieldset` returns no `contextName` at all, not `''`.

## Model

| member | source | states |
|---|---|---|
| `LegacyFieldSet.ConnectFieldSet` | react-fieldset.js:5-25 | The wrapped component receives every caller prop, with only `context`, `readOnly` and `name` overwritten, and `context` is the received context. Name rule: a falsy own name keeps a truthy context name, or `''` when there is no context or its name is falsy. A truthy own name is joined to a non-empty context name by exactly one dot, and stands alone otherwise. readOnly rule: a truthy own value wins. A falsy own value, `false` included, falls through to the inherited one. A winning function is called once with the received context and its result replaces it. Any other value passes through unchanged. |
| `LegacyFieldSet.FieldSetRender` | react-fieldset.js:28-37 | The published context has the keys of the parent context, plus the own props except `children` and `context`, plus `name`. `name` is the received name. Own props shadow inherited keys shallowly, and other inherited keys are kept. |
| `LegacyFieldSet.FieldSet` | react-fieldset.js:40 | The exported FieldSet publishes the composed name and the resolved `readOnly` that its consumer wrapper computed, never the raw own values. |
| `LegacyFieldSet.FieldSetMerge` | react-fieldset.js:29-40 | The exported FieldSet publishes the keys of the parent context, plus the own props except `children` and `context`, plus `name` and `readOnly`, and no other key. Own attributes shadow inherited ones shallowly, and other inherited keys survive unchanged. |
| `LegacyFieldSet.FieldSetKeepsReadOnly` | react-fieldset.js:12-32 | A FieldSet whose own `readOnly` is falsy republishes an inherited `readOnly` that is not a function. |
| `LegacyFieldSet.NestedName` | react-fieldset.js:9-32 | Nested FieldSets whose names are strings or falsy publish `Join` of their non-empty segments: one dot between segments, none in front, and unnamed FieldSets add nothing. |
| `LegacyFieldSet.NestedNameSplitsBack` | react-fieldset.js:9-32 | For FieldSets each named by a non-empty segment without a dot, the leaf name is the segments joined by single dots, and splitting it at dots gives back exactly those segments. The leaf name is non-empty, neither starts nor ends with a dot, and has no two adjacent dots. |
| `LegacyFieldSet.ReadOnlyInherited` | react-fieldset.js:12-32 | A resolved `readOnly` that is not a function passes unchanged through every inner FieldSet whose own `readOnly` is falsy. So `{readOnly: true}` around `{}` gives `true` inside. |
| `LegacyFieldSet.ExplicitFalseFallsThrough` | react-fieldset.js:12 | An own `readOnly: false` under an inherited `true` publishes `true`. |
| `LegacyFieldSet.PredicateResolvedAtDeclaration` | react-fieldset.js:12-13 | An own predicate `readOnly` is published as its result on the FieldSet's parent context. |
| `LegacyFieldSet.LeafNameExample` | react-fieldset.js:9-10 | A leaf named `c` inside FieldSets named `a` then `b` is named `a.b.c`. |
| `LegacyFormLayer.ConnectFormLayer` | index.js:5-25 | `connectFormLayer` hands the wrapped component exactly what `connectFieldSet` does, for every props, context and predicate evaluation. So it has the same name rule, readOnly resolution and prop forwarding. |
| `LegacyFormLayer.FormLayerRender` | index.js:27-38 | `FormLayer.render` publishes exactly what `FieldSet.render` publishes for every props. |
| `LegacyFormLayer.FormLayer` | index.js:40 | The exported `FormLayer` publishes exactly the context that the exported `FieldSet` publishes for the same inputs. |
| `FieldsetHook.UseFieldset` | src/useFieldset.js:5-16 | With no context, `fullName` is the argument unchanged (possibly `undefined`), and neither `fieldsetProps` nor `contextName` is returned. With a context, `contextName` is the context's `name`, `fullName` is `prefixName(contextName, name)`, and `fieldsetProps` is the context with only `name` removed, every other key and value unchanged. |
| `FieldsetHook.InheritedPropsHaveNoName` | src/useFieldset.js:9 | The attributes handed on by `useFieldset` never contain `name`. |
| `FieldsetComponent.FieldsetInner` | src/Fieldset.js:15-17 | The provided value is the props without `children`, every other key unchanged. |
| `FieldsetComponent.Fieldset` | src/Fieldset.js:5-13 | The published value has the inherited keys, the own keys and `name`, but never `children`. Its `name` is the full name: the given name with no context, `prefixName(context.name, name)` otherwise. Any own key replaces the inherited value whatever the own value is, and other inherited keys pass unchanged. |
| `FieldsetComponent.ReadOnlyPassedThrough` | src/Fieldset.js:5-9 | `readOnly` is never evaluated. An own value is published as given, including a predicate, `false` or `undefined`. Without an own value the inherited one is published, and without either there is no key. |
| `FieldsetComponent.OutermostFieldset` | src/Fieldset.js:5-9 | With no enclosing Fieldset, the published value is the own props without `children`, with `name` equal to the given name. |
| `FieldsetComponent.NestedNameIsLeftFold` | src/Fieldset.js:5-16 | Inside nested Fieldsets, the published name is the left fold of `prefixName` over their names, starting from the outermost name as given. |
| `FieldsetComponent.AttributeFromNearestScope` | src/Fieldset.js:9 | Every attribute except `name` and `children` reaches the inside of nested Fieldsets from the innermost Fieldset that declares it. |
| `FieldsetComponent.NestedNameUnderJoinRule` | src/Fieldset.js:6-9 | Assumption: if `prefixName` is the first-generation join rule, nested Fieldsets named by non-empty segments publish the segments joined by single dots. |
| `FieldsetWrappers.WithFieldset` | src/withFieldset.js:4-8 | The wrapped component gets the inherited attributes, then the caller's props (which win), then `name` set to the full name: the caller's name with no context, `prefixName(context.name, name)` otherwise. No other key appears. |
| `FieldsetWrappers.WithFullName` | src/withFieldset.js:11-15 | The wrapped component gets the caller's props unchanged, including the local `name`. `fullName` is added, and an existing `fullName` is overwritten. No inherited attribute is added. |
| `FieldsetWrappers.FullNameAgrees` | src/withFieldset.js:6-14 | For the same props and context, the `fullName` from `withFullName` equals the `name` that `withFieldset` forwards. |
| `FieldsetWrappers.WithFieldsetOutsideFieldset` | src/withFieldset.js:6-7 | With no enclosing Fieldset, every property the wrapped component reads equals the caller's. |

## Left out

- React plumbing is not modelled: Provider, Consumer, `useContext`, JSX rendering of the wrapped component, and the `memo` around `FieldsetInner`. `memo` only skips re-rendering and does not change the published value. The context is an explicit parameter instead.
- React removes the `key` and `ref` props before a component sees its props. The model's props are the props as the component receives them.
- src/index.js only creates the context and re-exports. The example applications and the bundler configurations are not part of this model.
- `prefixName` in src/helpers is not part of this model. It stays an uninterpreted parameter, and `FieldsetComponent.JoinRulePrefix` is only an assumed instantiation.
- A `readOnly` predicate that throws is not modelled: predicates are total, through the `eval` parameter.
- LegacyFieldSet.FieldSetRender requires its `context` prop to be an object or `undefined`. Its only caller, the wrapper on line 40, always passes one of these. Spreading a string or an array there is not modelled.
- String conversion uses a function's source text, `[object Object]` for objects, and the given text for other values. Custom `toString`/`valueOf` methods are not modelled.
- JavaScript's key order in objects is not modelled (`Props` is an unordered map). `Props` does keep an own key holding `Undefined` apart from a missing key, as object spread does; `Get` reads both as `undefined`, as property access does.
- Every member is a Dafny function, so equal props and context give equal outputs; no lemma states it.
- Each of `Fieldset`, `withFieldset` and `withFullName` calls `FieldsetHook.UseFieldset` exactly once in its body. This is structural and no contract states it.
