# ImNodeFlow pin and link bookkeeping, in Dafny

This project models the bookkeeping part of ImNodeFlow, a node-graph editor widget built on Dear ImGui. It covers:

- the connection protocol between an output pin and an input pin;
- the link lists that pins and the graph keep;
- the static and dynamic pin lists of a node;
- the graph's node registry.

The model is imperative, like the library:

- `Link` is a class whose two endpoints never change: `left` is the output pin, `right` the input pin.
- `Pin` is one class for `InPin<T>` and `OutPin<T>`, told apart by its `kind`. Its `links` field is the list the library pushes to and erases from.
- `BaseNode` holds `ins`, `outs`, `dynamicIns` and `dynamicOuts` as sequence fields.
- `Handler` stands for the `ImNodeFlow` graph object. It holds the node map, the link registry and a record of the creation hooks it called.

The file `seqs.dfy` (module `Seqs`) defines `Without`, which erases from a list every entry that belongs to a set and keeps the rest in order. Every erase the pins perform is stated through it. The file `imflow.dfy` (module `ImFlow`) holds the classes and the lemmas about pin lists.

Some behaviour depends on state this model does not keep:

- Whether a weak reference in an output pin's list has expired is passed in as a set `expired` of links.
- Pin identifiers are taken as already hashed natural numbers.
- A node's address is modelled as a fresh number handed out by a counter in the graph.
- Each pin's connection filter is a pure function. It receives a `PinInfo` view of each of the two pins: identifier, name, direction, the name of the value type, and whether the pin already holds a link. The last is enough for a filter that allows an input pin a single link.

## Model

| member | source | states |
|---|---|---|
| `ImFlow.Pin.InCreateLink` | src/ImNodeFlow.inl:303-327 | The input pin refuses a link from itself, from an input pin, from a pin of its own node when self-connection is off, from a source it already has a link from, or when the filter says no. On refusal no link is created, this pin's list, the source's list and the graph are all unchanged. Otherwise one fresh link `(other, this)` is appended to this pin's list, the source's list and the graph registry, and the link hook is recorded as called on it when a hook is set. Nothing else in the graph changes: its nodes, address counter, node-hook record and hook flags stay as they were. The method also keeps the sources of the pin's links pairwise distinct. |
| `ImFlow.Pin.HasLinkFrom` | src/ImNodeFlow.inl:311-315 | The scan for an existing link answers true exactly when some link in the pin's list has `other` as its source. |
| `ImFlow.Pin.OutCreateLink` | src/ImNodeFlow.inl:333-339 | An output pin asked to link to itself or to another output pin changes nothing. For an input pin its effect is exactly the input pin's `createLink(this)` outcome, so the input side alone decides legality. Apart from the graph's registry and link-hook record, the graph does not change. |
| `ImFlow.Pin.AddLink` | src/ImNodeFlow.inl:342-345 | Called on an output pin only, the output pin's list gains the link at its end, and nothing else in the list changes. |
| `ImFlow.Pin.OutDeleteLinks` | src/ImNodeFlow.inl:348-359 | The output pin's list ends up empty. Every destination pin has lost exactly the live links of this list that lead to it, and nothing else of a destination pin changes. |
| `ImFlow.Pin.OutDeleteLink` | src/ImNodeFlow.inl:362-375 | The list becomes exactly its entries that are neither expired nor equal to `link`, in their original order. If `link` was present and live, its destination pin drops it; otherwise the destination pin is untouched. |
| `ImFlow.Pin.InDeleteLink` | src/ImNodeFlow.inl:370 | The input pin's list loses every entry equal to the link (the contract assumed for the call made here). |
| `ImFlow.DeleteLinkAgain` | src/ImNodeFlow.inl:362-375 | After `deleteLink(link)` the link is gone from the list, and a second call with the same link and the same expired entries leaves the list unchanged. |
| `Seqs.Without` | src/ImNodeFlow.inl:364-374 | The filtered list holds exactly the entries of the original that are not to be erased, and is no longer than the original. |
| `Seqs.WithoutAppend` | src/ImNodeFlow.inl:364-374 | Erasing from a concatenation is erasing from each part, so the surviving entries keep their order. |
| `Seqs.WithoutWithout` | src/ImNodeFlow.inl:364-374 | Erasing twice is erasing once by both sets, so repeating a deletion is harmless. |
| `Seqs.WithoutUntouched` | src/ImNodeFlow.inl:364-374 | A list that holds nothing to erase is left exactly as it was. |
| `ImFlow.BaseNode.AddIN` | src/ImNodeFlow.inl:103-110 | A fresh input pin with the given identifier, name, type and filter, owned by this node, with no links and self-connection off, is appended to `ins`. Identifiers already in use are not rejected. |
| `ImFlow.BaseNode.AddOUT` | src/ImNodeFlow.inl:160-167 | A fresh output pin with the given identifier, owned by this node, with no links and self-connection off, is appended to `outs`. Identifiers already in use are not rejected. |
| `ImFlow.FindUid` | src/ImNodeFlow.inl:214-215 | The result is the position of the first pin with the identifier, or the length of the list when there is none. |
| `ImFlow.IndexOfUid` | src/ImNodeFlow.inl:116-123 | The linear search returns the first position whose pin has the identifier, and a position inside the list exactly when such a pin exists. |
| `ImFlow.BaseNode.DropIN` | src/ImNodeFlow.inl:112-124 | `ins` loses its first pin with the identifier, if any, and keeps all the others in order. |
| `ImFlow.BaseNode.DropOUT` | src/ImNodeFlow.inl:169-181 | `outs` loses its first pin with the identifier, if any, and keeps all the others in order. |
| `ImFlow.DropFirstRemovesFirstMatch` | src/ImNodeFlow.inl:116-123 | Dropping by identifier keeps every pin with another identifier, in order, and keeps the later matches. It removes exactly one pin when there is a match and nothing when there is none. |
| `ImFlow.BaseNode.ShowIN` | src/ImNodeFlow.inl:137-152 | If a dynamic input pin with the identifier exists, only its marker becomes 1 and that pin is returned. Otherwise a fresh input pin with no links and self-connection off, marked 1, is appended and returned. Distinct identifiers stay distinct. |
| `ImFlow.BaseNode.ShowOUT` | src/ImNodeFlow.inl:194-208 | If a dynamic output pin with the identifier exists, only its marker becomes 2. Otherwise a fresh output pin with no links and self-connection off, marked 2, is appended. Distinct identifiers stay distinct. |
| `ImFlow.ShowMarks` | src/ImNodeFlow.inl:141-151 | Showing leaves the pins of the dynamic list unchanged when the identifier exists, and adds exactly the new pin otherwise. It does not touch entries with other identifiers. Afterwards the pin with the identifier carries the marker. |
| `ImFlow.ShowKeepsUidsDistinct` | src/ImNodeFlow.inl:141-151 | Showing keeps the identifiers of a dynamic list pairwise distinct. |
| `ImFlow.ShowAgain` | src/ImNodeFlow.inl:141-147 | Showing the same identifier a second time in a frame changes nothing more. |
| `ImFlow.BaseNode.InPin` | src/ImNodeFlow.inl:210-218 | Given that some static input pin has the identifier, the lookup returns the first such pin of `ins`. |
| `ImFlow.BaseNode.OutPin` | src/ImNodeFlow.inl:225-233 | Given that some static output pin has the identifier, the lookup returns the first such pin of `outs`. |
| `ImFlow.BaseNode.constructor` | src/ImNodeFlow.inl:66 | A newly built node has no graph, no pins and the style its constructor chose, if any. |
| `ImFlow.Handler.AddLink` | src/ImNodeFlow.inl:323 | The graph registry gains the link at its end (the contract assumed for the call made here). |
| `ImFlow.Handler.CallLinkHook` | src/ImNodeFlow.inl:325-326 | A call of the link-creation hook on the link is recorded. |
| `ImFlow.Handler.AddNode` | src/ImNodeFlow.inl:61-80 | The fresh node is placed at the position and attached to this graph. It gets the cyan style when it had none. It is stored under an identifier not in use before, and every other entry stays. The node hook is recorded as called on it when a hook is set. The graph invariant, that every node is stored under its own identifier, is kept. |

## Left out

- `smart_bezier` and `smart_bezier_collider` (curve drawing and hit testing) are left out. They are floating-point geometry that issues draw calls or calls `ImProjectOnCubicBezier`, which is not part of this model.
- `Pin::drawSocket`, `Pin::drawDecoration` and `Pin::update` are left out. They are ImGui rendering and hover queries; the hovered-pin slot of the graph is not modelled.
- `placeNodeAt` and `placeNode` are left out. They only convert a screen position (`screen2grid`, `ImGui::GetMousePos`) before calling `addNode`.
- Reference counting is not modelled: `shared_ptr` lifetimes, destructors, and therefore the link teardown when a pin or node is destroyed. Weak-reference expiry is the `expired` parameter, and it is fixed for the duration of one call.
- Two bodies are not part of this model: `InPin::deleteLink` and the graph's `addLink`. `ImFlow.Pin.InDeleteLink` and `ImFlow.Handler.AddLink` carry the assumed contracts (erase every equal entry; append), and their bodies are those contracts.
- The end-of-frame sweep of unmarked dynamic pins and `isConnected` are not part of this model.
- `ImFlow.Pin.InCreateLink`: the filter sees only a `PinInfo` value of each pin (identifier, name, direction, value type, whether it holds a link), not the pins themselves. It is a pure function, so the order in which the checks run and any side effect of the user's filter are not observable.
- User hooks are recorded as calls in `linkHookCalls` and `nodeHookCalls`. Two things are not captured: what the hooks do (including re-entrant changes), and the order of a hook call relative to the registry update.
- The held value `val()` of a pin is not modelled. `ImFlow.BaseNode.ShowIN` returns the pin whose value the library would return.
- The user's node constructor is not modelled. `ImFlow.Handler.AddNode` builds a node with no pins, and takes the style that constructor would have set as the `initialStyle` parameter.
- Two pieces of state come from the library's header, which is not part of this model. A pin's `allowSelfConnection` starts false and no setter is modelled. Link entries are never null, so the `m_link &&` test in the duplicate scan is not modelled.
- The `PinStyle` argument of `addIN_uid`, `addOUT_uid`, `showIN_uid` and `showOUT_uid` is dropped, and so is a link's back-reference to its graph. Both are rendering or ownership data that no bookkeeping rule reads.
- `std::hash` is not modelled; identifiers are the hashed values themselves, so hash collisions behave like equal keys.
- The node address used as identifier is a counter in the graph. It stands for the fact that a live object's address differs from every other live node's address.
- The requires of `ImFlow.Pin.OutDeleteLink` and `ImFlow.Pin.OutDeleteLinks`: the links involved lead to input pins. Input pins are the only kind the input side's `createLink` ever puts at the `right` end, so the notification always reaches `InPin::deleteLink`.
- The requires of `ImFlow.Pin.InCreateLink` and `ImFlow.Pin.OutCreateLink`: a link that passes every check needs the node to belong to a graph. The library dereferences the graph pointer there without a test, so a node outside any graph is undefined behaviour, which the model excludes rather than models.
- The deletion loop in `OutPin::deleteLink` uses an unsigned `i--` wrap-around after an erase. It is modelled as a loop that does not advance its index after an erase, which behaves the same.
