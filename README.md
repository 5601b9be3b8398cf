# ReScript create-element calls to JSX, modelled in Dafny

The plugin rewrites the element-construction calls that the ReScript compiler emits into JSX markup. It recognises two calling conventions:

- **variadic** (v3): `React.createElement(type, props, ...children)`;
- **props-object** (v4): `JsxRuntime.jsx(type, {..., children})`.

For a recognised call, the engine performs these steps in order:

1. Resolve the type argument to a tag name.
2. Normalise the children. Nested recognised calls become nested markup. Under v3, a child that cannot be translated makes the whole call fail. Under v4, it is kept as a failed slot and does not make the call fail.
3. If the type names a fragment, build a fragment of the children. The props are not read.
4. Otherwise, normalise the props into an ordered list of attributes and build an element. Normalising flattens the `_extends(...)` merge calls that object spreads compile to. An element closes itself exactly when it has no children.

When any required part cannot be translated, the engine gives "not applicable" (`None` here). The call is then left as it is.

There are two versions of the engine:

- `src/index.mjs`, the current one, handles both conventions. It is modelled by module `Engine`, with its properties in `EngineFacts`.
- `src/index.js`, the older one, handles only v3. It is modelled by module `Legacy`, with its properties in `LegacyFacts`.

The name resolver and the props normaliser are the same code in both files. They are modelled once, in `Names` and `Props`. The handling of the variadic arguments shared by both engines is in `Arguments`.

Layout:

- `syntax.dfy`: the input node shapes the engine distinguishes, and the markup it builds.
- `seqs.dfy`: filtering and flattening of sequences.
- `markup.dfy`: the element and fragment builders, with the self-closing invariant.
- `names.dfy`, `props.dfy`, `arguments.dfy`: name resolution, props normalisation, variadic arguments.
- `engine.dfy`: the current engine.
- `legacy.dfy`: the older engine.
- `scenarios.dfy`: test cases of the repository, stated as lemmas about concrete calls.

Both files are written without mutable state, out of recursion, `map`, `filter`, `every` and `concat`. So the model is made of datatypes, functions with named results, and lemmas.

The mutual recursion between `getJSXChild` and `getJSXNode` calls `getJSXNode` on the same node. Termination is shown with lexicographic measures: `(n, 3)` for a child, and `(n, 2)` for a node.

## Model

| member | source | states |
|---|---|---|
| Syntax.IsNullLike | src/index.mjs:86-87 | `null` and the identifier `undefined` are the sentinels that mean an omitted argument. |
| Syntax.Arg | src/index.mjs:228 | An argument position is present exactly when the call has that many arguments, and then it is that argument. |
| Names.JsxIdentifier | src/index.mjs:26-31 | An identifier or a string literal gives a one-token name, spelled like the identifier's name or the literal's value. Every other node gives none. |
| Names.ResolveName | src/index.mjs:42-53 | A node resolves exactly when it is an identifier, a string literal, or a member access whose object and property both resolve. A member gives the member name of the two parts. A resolved name spells the node's tokens left to right. The `computed` flag plays no part. |
| Names.JsxName | src/index.mjs:42-43 | An absent type argument has no name. A present one resolves as above. |
| Names.ResolveUnparse | src/index.mjs:42-53 | Every tag name is the resolution of its own dotted source form: resolution loses nothing. |
| Names.DottedResolves | src/index.mjs:42-53 | A dotted path `A.B.C...` of any length resolves to a name with the same tokens in the same order. |
| Names.UnresolvableInside | src/index.mjs:48-51 | A member chain fails to resolve as soon as any part of it fails, at any depth. The failing part can be a call, an object literal, a null literal, or a member access one of whose own parts fails. |
| Names.CallInChain | src/index.mjs:48-51 | `A.f().B` does not resolve: the call two levels down makes the chain fail. |
| Props.AttributeValue | src/index.mjs:33-38 | A value exists exactly for expressions. It converts back to the node it came from. A value in braces is never a string literal and never an element. |
| Props.IsPlainObject | src/index.mjs:90-98 | An object literal is plain when every entry is a spread, or a non-computed `key: value` pair whose key names an attribute and whose value converts. |
| Props.PropsOf | src/index.mjs:58-83 | It fails exactly on a non-expression or on an object literal that is not plain. A `null` or `undefined` gives no attributes. A merge call with a failing argument becomes one spread of the whole call. Every other non-object expression becomes one spread of itself. |
| Props.JsxProps | src/index.mjs:58-59 | Absent props give no attributes. Present props are normalised as above. |
| Props.ObjectAttributes | src/index.mjs:74-98 | A plain object literal gives exactly one attribute per property, in property order. A spread gives a spread of the same argument. A `key: value` pair gives an attribute named by the key whose value converts back to the property's value. |
| Props.ObjectRoundTrip | src/index.mjs:74-98 | Normalisation inverts writing attributes out as an object literal: any list of printable attributes comes back unchanged. |
| Props.ExtendsConcat | src/index.mjs:61-69 | When all arguments of a merge call resolve, splitting the arguments splits the attributes at the same place: flattening is concatenation in argument order. |
| Props.ExtendsSingle | src/index.mjs:61-69 | A merge of one resolvable argument gives that argument's attributes. |
| Props.ExtendsFallback | src/index.mjs:61-72 | A merge call with any failing argument does not fail. It becomes a single spread of the whole call. |
| Arguments.Trailing | src/index.mjs:228 | The child arguments are those after the type and the props, or none when the call has fewer than three arguments. |
| Arguments.AllEmptyArrays | src/index.mjs:180-184 | Every node is the empty array literal `[]`, vacuously so for none. |
| Arguments.KeptChildren | src/index.mjs:186-188 | The kept children are exactly the trailing arguments that are not `null` or `undefined`. |
| Arguments.KeptChildrenCons | src/index.mjs:186-188 | Prepending a child argument prepends it to the kept children exactly when it is not a sentinel, so the order of the trailing arguments is kept. |
| Markup.CreateElement | src/index.mjs:125-132 | The element carries the given name, attributes and children. It closes itself exactly when there are no children. It has a closing tag exactly when it does not close itself, and that tag has the same name. |
| Markup.CreateFragment | src/index.mjs:116-122 | A fragment holds exactly the given children. |
| Engine.JsxVersion | src/index.mjs:148-177 | A call is v3 exactly when it calls a container (`JsxRuntime`, `React`, `ReactDOM`, `ReactDOMRe`) with a variadic method name (`createElement`, `createElementVariadic`, `createDOMElementVariadic`). It is v4 exactly when it calls a container with a props-object method name (`jsx`, `jsxs`, `jsxDEV`). Only calls get a convention. |
| Engine.IsFragment | src/index.mjs:101-113 | The type is `X.Y` with `X` one of `JsxRuntime`, `ReasonReact`, `React` and `Y` one of `Fragment`, `fragment`, `jsxFragment`. The `computed` flag is not looked at. |
| Engine.HasChildrenV4 | src/index.mjs:194-199 | The props are an object literal with a property keyed by the identifier `children`. A spread entry has no key. |
| Engine.RemoveChildrenV4 | src/index.mjs:211-216 | The result is an object literal holding the properties not keyed by the identifier `children`, in their order. A property is kept exactly when it is one of these. |
| Engine.JsxChild | src/index.mjs:134-142 | A child fails exactly when it is not an expression, or when it is a recognised call that does not translate. A string literal becomes text with the literal's value. A translated call becomes nested markup. Any other expression goes into braces. Every resulting slot keeps the self-closing invariant. |
| Engine.ChildrenV3 | src/index.mjs:186-192 | The result exists exactly when every kept child converts. It then has one slot per kept child, in order, each the conversion of that child, none failed and all well-formed. |
| Engine.ChildrenV4 | src/index.mjs:201-209 | Every child slot keeps the self-closing invariant. Its content is stated by `EngineFacts.ChildrenV4Spec`. |
| Engine.JsxNode | src/index.mjs:222-263 | A result exists only for recognised calls, and it keeps the self-closing invariant at every nested level. |
| EngineFacts.V3Fails | src/index.mjs:230-246 | A v3 call fails exactly when one of these holds: the name does not resolve; the trailing arguments are not all `[]` and a kept child fails; or the type is not a fragment and the props fail. When none holds, it translates. |
| EngineFacts.V3Aborts | src/index.mjs:186-192 | For a v3 call whose trailing arguments are not all `[]`, one kept child that fails makes the whole call fail. |
| EngineFacts.V3EmptyArrays | src/index.mjs:180-184 | When every trailing argument is `[]`, vacuously so when there are none, the result has no children. An element then closes itself and has no closing tag. |
| EngineFacts.V3Translation | src/index.mjs:230-246 | A translated v3 call has a resolvable name, and it is a fragment exactly when the type names one. None of its children failed. When every trailing argument is `[]`, vacuously so when there are none, it has no children (`V3EmptyArrays`). Otherwise its children are its converted kept children, in order. An element carries the resolved name and the attributes of the props. |
| EngineFacts.ChildrenV3SameKept | src/index.mjs:186-192 | v3 children depend only on the kept trailing arguments. |
| EngineFacts.V3FragmentIgnoresProps | src/index.mjs:239-241 | For a v3 fragment, any two props arguments give the same result, which is a fragment. |
| EngineFacts.ChildrenV4Spec | src/index.mjs:201-209 | v4 children come from the first property keyed by the identifier `children`. An array gives one converted child per element, in order. Any other value gives one child. A method property gives one failed child. |
| EngineFacts.V4FailsOnlyOnNameOrProps | src/index.mjs:247-261 | A v4 call translates exactly when its name resolves and, unless it is a fragment, its props resolve after the `children` properties are removed. A child never makes it fail. |
| EngineFacts.V4Translation | src/index.mjs:247-261 | A v4 element carries the resolved name. Its attributes are those of the props with every `children` property removed. Its children come from the first `children` property, or are empty when there is none. |
| EngineFacts.V4FragmentNeverFails | src/index.mjs:247-254 | A v4 call naming a fragment always translates, to a fragment of its children alone. |
| EngineFacts.V4IgnoresExtraArguments | src/index.mjs:247-261 | A v4 call reads only its first two arguments. |
| EngineFacts.V4StringChildrenKey | src/index.mjs:194-216 | A `"children"` key written as a string is an ordinary attribute and gives no child. |
| EngineFacts.V4NullChild | src/index.mjs:201-209 | A v4 `children: null` is one expression child, so the element does not close itself. A v3 `null` argument would be dropped. |
| EngineFacts.VersionIgnoresComputed | src/index.mjs:148-177 | The classifier gives the same answer whether the callee access is computed or not. |
| Legacy.IsReactCreateElement | src/index.js:122-132 | A call of `C.m` through a non-computed member access, with `C` one of `React`, `ReactDOMRe` and `m` one of `createElement`, `createElementVariadic`, `createDOMElementVariadic`. |
| Legacy.IsFragment | src/index.js:135-140 | Any member access on the identifier `ReasonReact`, whatever the property. |
| Legacy.JsxChild | src/index.js:89-97 | A child fails exactly when it is not an expression, or when it is a `createElement` call that does not translate. A string literal becomes text with the literal's value. A translated call becomes nested markup. Any other expression goes into braces. A child that does not fail has no failed slot at any depth. Every slot is well-formed. |
| Legacy.Children | src/index.js:99-105 | The result exists exactly when every kept child converts. It then has one slot per kept child, in order, each the conversion of that child, complete and well-formed. |
| Legacy.JsxNode | src/index.js:15-42 | A result exists only for recognised calls. It keeps the self-closing invariant and has no failed child slot at any depth. |
| LegacyFacts.Translation | src/index.js:22-41 | A translated call has a resolvable name, and it is a fragment exactly when the type names one. Its children are none when every trailing argument is `[]`, and otherwise its converted kept children, in order. An element carries the resolved name and the attributes of the props. |
| LegacyFacts.Aborts | src/index.js:15-33 | A recognised call fails exactly when one of these holds: the name does not resolve; the trailing arguments are not all `[]` and a kept child fails; or the type is not a fragment and the props fail. |
| LegacyFacts.FragmentChildFails | src/index.js:25-30 | The children are resolved before the fragment test, so a failing child makes a fragment fail too. |
| LegacyFacts.ChildrenSameKept | src/index.js:99-105 | The children depend only on the kept trailing arguments. |
| LegacyFacts.FragmentIgnoresProps | src/index.js:28-30 | For a fragment, any two props arguments give the same result, which is a fragment. |
| LegacyFacts.FragmentAnyProperty | src/index.js:135-140 | Every property of `ReasonReact` names a fragment here. The current engine accepts only `Fragment`, `fragment` and `jsxFragment`. |
| LegacyFacts.ComputedRejected | src/index.js:122-132 | A computed callee is never recognised, so such a call never translates. |
| LegacyFacts.RecognisedCallsAreV3 | src/index.js:122-132 | Every call this engine recognises, the current engine classifies as v3. |
| LegacyFacts.CurrentRecognisesMore | src/index.js:122-132 | The converse fails: `ReactDOM.createElement(...)` and a computed `React[createElement](...)` are v3 calls for the current engine only. |
| Scenarios.OneArgument | test/index-v3.spec.js:14-20 | `createElement("h1")` is `<h1 />` in both engines. |
| Scenarios.RuntimeOneArgument | test/index-v4.spec.js:14 | `JsxRuntime.jsx("h1")` is `<h1 />`. |
| Scenarios.MemberName | test/index-v3.spec.js:24 | `createElement(Foo.Bar.Baz)` is `<Foo.Bar.Baz />`. |
| Scenarios.NullArguments | test/index-v3.spec.js:29 | `createElement("h2", null, null)` is `<h2 />` in both engines. |
| Scenarios.MixedAttributes | test/index-v3.spec.js:56-57 | `_extends({hi: "there"}, props)` gives `hi="there"` and then `{...props}`. |
| Scenarios.MixedElement | test/index-v3.spec.js:55-57 | `createElement("h1", _extends({hi: "there"}, props))` is `<h1 hi="there" {...props} />`. |
| Scenarios.TwoTexts | test/index-v3.spec.js:77-78 | `createElement("h2", null, "Header", "harhar")` has the two text children `Header` and `harhar`, in order. |
| Scenarios.IntermingledKept | test/index-v3.spec.js:96-98 | Of `null, "Header", undefined`, only `"Header"` is kept. |
| Scenarios.IntermingledChildren | test/index-v3.spec.js:96-98 | Those children are the one text child `Header`. |
| Scenarios.IntermingledNulls | test/index-v3.spec.js:95-98 | `createElement("h1", null, null, "Header", undefined)` is `<h1>Header</h1>`. |
| Scenarios.InnerElement | test/index-v4.spec.js:68 | `jsx("div", {children: "Child"})` is `<div>Child</div>`. |
| Scenarios.InnerChild | test/index-v4.spec.js:68 | As a child, that call is its element nested. |
| Scenarios.OuterChildren | test/index-v4.spec.js:68 | `children: ["Header", jsx("div", ...)]` gives the text and the nested element, in order. |
| Scenarios.OuterAttributes | test/index-v4.spec.js:68 | Without `children`, the props `{hi: there, children: ...}` give the one attribute `hi={there}`. |
| Scenarios.NestedPropsObject | test/index-v4.spec.js:68-70 | The whole call is `<h1 hi={there}>Header<div>Child</div></h1>`. |
| Scenarios.Fragments | test/index-v4.spec.js:80-83 | `createElement(X.Y, null)` is the empty fragment for every fragment namespace `X` and fragment name `Y`. |
| Scenarios.LegacyFragments | src/index.js:135-140 | In the older engine, `ReasonReact.fragment` names a fragment and `React.Fragment` names an ordinary element. |

## Left out

- The Babel visitor (`CallExpression` with `path.replaceWith` and `replaceWithMultiple`, src/index.mjs:265-283 and src/index.js:178-190) is not modelled. It rewrites the host tree, and its `node.length` branch cannot be taken. Each call is translated on its own. So a call nested inside another expression (`foo ? React.createElement("p") : null`) is left to the visitor's own visit of that call.
- The `@babel/types` predicates and builders are foreign code. The input is modelled by the datatype `Syntax.Node`, and "is an expression" by `Syntax.IsExpression`.
- `Markup.CreateElement`, `Markup.CreateFragment`: Babel's builders check their arguments, and would throw on the `null` child that a failing v4 child gives. The model keeps such a child as a `None` slot: that is what the engine's own code hands to the builder.
- Node metadata (`loc`, `extra`) is not modelled. A text child carries the literal's value, and that is also all that the `extra.raw` patch for Solid records.
- Expression shapes the engine does not distinguish are one `OtherExpr`, and their sub-nodes are not modelled. Non-expressions (spread arguments, array holes) are one `NonExpr`.
- Parsing and printing are not modelled. The merging of adjacent text children into `Headerharhar` is done by a printer. The engine gives two text children.
- Plugin options are not modelled: neither engine reads any, so the `{ jsx: "v3" }` option passed in the tests selects nothing.
- `Engine.JsxVersion`: `React[createElement](...)` is classified like `React.createElement(...)`, because src/index.mjs:148-177 never reads `computed`. The fragment test src/index.mjs:101-113 does not read it either. Only src/index.js:132 rejects a computed callee.
- `Names.ResolveName`: neither file reads `computed` when resolving a name, so `Foo[Bar]` resolves like `Foo.Bar`. For a type such as `Foo[Bar.Baz]`, the code hands Babel's `jSXMemberExpression` builder a member name as the property (src/index.mjs:50-52, src/index.js:54-56). That builder accepts only an identifier there and throws. The model does not capture the throw: it gives `Foo.(Bar.Baz)` as a nested name.
- `Arguments.AllEmptyArrays`: `isEmptyChildren` (src/index.mjs:180-184) reads the `.elements` field of any node. A tuple literal `#[]` would therefore also count as empty. The model has no tuple literals: such a node is an `OtherExpr`, which does not count as empty.
- `Engine.ChildrenV4`: a `children` array element that is not an expression, an array hole, or a nested recognised call that fails each converts to `null` (src/index.mjs:141, 208). That `null` stays in the child list as a failed slot.
