# Lobo Evolution core in Dafny

This project is a Dafny model of several cores of the Lobo Evolution browser, with proofs of their properties.

## The HTML DOM element (`dom.dfy`, `css.dfy`)

The main core is the per-element style cache of `HTMLElementImpl` and the attribute store of `ElementImpl` underneath it.

### The element and its tree

- An element is a `class` with the store's own mutable fields:
  - the attribute map;
  - the `id` field;
  - the three cache slots (local, current and computed styles, the last kept per pseudo-element);
  - `hasMouseOver`;
  - `notificationsSuspended`;
  - the parent pointer.
- The children are fixed at construction. `Valid()` states that the subtree is a finite tree.

### The attribute store

- Attribute names are normalised before every access.
- Setting "id" or "name" keeps the `id` field and the document's id and name tables in step.
- The style slots are cleared as `assignAttributeField`, `forgetLocalStyle`, `forgetStyle(deep)`, `informInvalidAttibute` and `setMouseOver` clear them.
- `forgetStyle(true)` clears the slots of every element of the subtree.

### The style slots

- A slot fills on first read.
- A slot that is already full is returned unchanged.

### Unseen collaborators

- The CSS parser is a function that may fail.
- The stylesheet aggregator is a function from (tag, classes, hover) to a sequence of declaration blocks and a hover answer.
- `AbstractCSSProperties` is a value: its declaration blocks plus a local slot.

### Queries

- `getAncestor` follows the parent pointers. A ghost list of the ancestors bounds the recursion.
- `getParent` looks at the parent alone.

## The class list (`token_list.dfy`)

`DOMTokenListImpl` is an ordered list of tokens bound to an element.

- Each operation has the source's error rules: `INVALID_CHARACTER_ERR` and `SYNTAX_ERR`.
- Each operation writes the element's `class` attribute back the same way the source does:
  - by appending the trimmed token to the old class name;
  - by the space-joined list;
  - or not at all.
- A pure function on token sequences states each operation. The class's methods are proved equal to those functions.
- The lemmas state:
  - idempotence;
  - toggle twice;
  - that add, remove and toggle keep the list well formed;
  - the `getValue`/`setValue` round trip.

## The form element (`html_form.dfy`)

From `HTMLFormElementImpl`:

- the input test;
- the default method;
- the cached `elements` collection;
- `item`;
- `namedItem`;
- the input-collecting part of `submit`.

Inputs are searched in the form's pre-order visit order.

## The font table (`cmap_table.dfy`)

`CmapTable` is the TrueType 'cmap' table.

- It is an ordered map from (platformID, platformSpecificID) to subtables, kept as a sorted entry sequence.
- Its byte form follows the 'cmap' table header and encoding-record layout of the OpenType / Apple TrueType specification:
  - a 4-byte header;
  - 8-byte records whose 32-bit offsets count from the start of the table;
  - the bodies, in key order.
- `getData` is proved to write exactly that layout, and `setData` is proved to read it back.
- `getCMaps` is proved to give the (3,1) and (1,0) maps first, then every other map once.
- Java's 16- and 32-bit arithmetic is written out (`java_int.dfy`).

## The script engine factory (`context_factory.dfy`)

Rhino's `ContextFactory` contains:

- the process-wide global that can be set only once;
- seal;
- the listener list, which can be disabled;
- the one-time application class loader;
- the feature table.

## Small pieces

| file | source | what it models |
|---|---|---|
| `tag_name_filter.dfy` | `TagNameFilter.accept` | case-insensitive tag match |
| `input_control.dfy` | `InputControl.direction` | the dir attribute as a component orientation |
| `scroll_button.dfy` | `BaseScrollButton` | size queries, with Java `int` wrap-around |
| `script_runtime.dfy` | `ScriptRuntimeES6.requireObjectCoercible` | the coercibility check |
| `comment.dfy` | Rhino's AST `Comment` | the AST node |

`java_text.dfy` holds the Java string operations the sources rely on: `trim`, ASCII case mapping, `equalsIgnoreCase`, `StringTokenizer` splitting and joining.

## Model

| member | source | states |
|---|---|---|
| CmapTables.KeyLessOrder | LoboPDF/src/main/java/org/loboevolution/pdfview/font/ttf/CmapTable.java:292-311 | the subtable key order is irreflexive, transitive, total and asymmetric |
| CmapTables.CompareTo | LoboPDF/src/main/java/org/loboevolution/pdfview/font/ttf/CmapTable.java:292-311 | the result is -1, 0 or 1, and it is -1 for an argument that is not a subtable |
| CmapTables.CompareToIsKeyOrder | LoboPDF/src/main/java/org/loboevolution/pdfview/font/ttf/CmapTable.java:292-311 | compareTo is -1, 0 or 1 exactly when the first key is less than, equal to or greater than the second (by platform ID, then specific ID), and it is antisymmetric |
| CmapTables.EqualsIff | LoboPDF/src/main/java/org/loboevolution/pdfview/font/ttf/CmapTable.java:284-286 | equals holds exactly for a subtable with the same two IDs |
| CmapTables.Lookup | LoboPDF/src/main/java/org/loboevolution/pdfview/font/ttf/CmapTable.java:77-80 | a found map is stored under the key, and no map means no entry has the key |
| CmapTables.PutMembers | LoboPDF/src/main/java/org/loboevolution/pdfview/font/ttf/CmapTable.java:64-68 | put adds no entry besides the new key's |
| CmapTables.RemoveMembers | LoboPDF/src/main/java/org/loboevolution/pdfview/font/ttf/CmapTable.java:117-120 | remove keeps only old entries, and none with the key |
| CmapTables.PutSorted | LoboPDF/src/main/java/org/loboevolution/pdfview/font/ttf/CmapTable.java:64-68 | put keeps the entries in strictly ascending key order |
| CmapTables.RemoveSorted | LoboPDF/src/main/java/org/loboevolution/pdfview/font/ttf/CmapTable.java:117-120 | remove keeps the entries in strictly ascending key order |
| CmapTables.PutLookup | LoboPDF/src/main/java/org/loboevolution/pdfview/font/ttf/CmapTable.java:64-80 | after put, get of that key returns the new map (replacing any old one), other keys are unchanged, and the count grows by one exactly for a new key |
| CmapTables.RemoveLookup | LoboPDF/src/main/java/org/loboevolution/pdfview/font/ttf/CmapTable.java:117-120 | after remove, get of that key is null, other keys are unchanged, and the count drops by one exactly when the key was present |
| CmapTables.PutGreatest | LoboPDF/src/main/java/org/loboevolution/pdfview/font/ttf/CmapTable.java:64-68 | a key above every stored key is appended at the end |
| CmapTables.Values | LoboPDF/src/main/java/org/loboevolution/pdfview/font/ttf/CmapTable.java:98-102 | the values are the maps in key order |
| CmapTables.ReadShortAt | LoboPDF/src/main/java/org/loboevolution/pdfview/font/ttf/CmapTable.java:124-172 | a short written big-endian reads back as the same value |
| CmapTables.ReadIntAt | LoboPDF/src/main/java/org/loboevolution/pdfview/font/ttf/CmapTable.java:130-172 | an int written big-endian reads back as the same value |
| CmapTables.Layout | LoboPDF/src/main/java/org/loboevolution/pdfview/font/ttf/CmapTable.java:157-188 | the table's byte form has length 4 + 8n + the sum of the body lengths |
| CmapTables.RecordAt | LoboPDF/src/main/java/org/loboevolution/pdfview/font/ttf/CmapTable.java:166-175 | the i-th record holds the i-th key and the offset start + the lengths of the bodies before it |
| CmapTables.BodyAt | LoboPDF/src/main/java/org/loboevolution/pdfview/font/ttf/CmapTable.java:166-182 | from the i-th record's offset the bytes are the i-th body followed by the later bodies |
| CmapTables.RecordBytes | LoboPDF/src/main/java/org/loboevolution/pdfview/font/ttf/CmapTable.java:166-175 | the bytes of the j-th record read back as its two IDs and the offset 4 + 8n + the earlier body lengths |
| CmapTables.ReadFrom | LoboPDF/src/main/java/org/loboevolution/pdfview/font/ttf/CmapTable.java:127-153 | reading the remaining records of a well-formed table rebuilds the remaining entries and passes |
| CmapTables.ReadNext | LoboPDF/src/main/java/org/loboevolution/pdfview/font/ttf/CmapTable.java:127-153 | one record read: an unparsable map is skipped and the loop goes on |
| CmapTables.GetDataSetData | LoboPDF/src/main/java/org/loboevolution/pdfview/font/ttf/CmapTable.java:123-188 | the bytes getData writes read back, under setData, to the version, the count and exactly the same entries, whenever each body parses back to its map |
| CmapTables.FreshSpec | LoboPDF/src/main/java/org/loboevolution/pdfview/font/ttf/CmapTable.java:98-102 | the maps added after the preferred ones are exactly the unseen ones, with no repeats, in key order |
| CmapTables.PreferredInTable | LoboPDF/src/main/java/org/loboevolution/pdfview/font/ttf/CmapTable.java:90-97 | the (3,1) and (1,0) maps listed first are maps of the table |
| CmapTables.CMapsSpec | LoboPDF/src/main/java/org/loboevolution/pdfview/font/ttf/CmapTable.java:87-109 | getCMaps lists exactly the table's maps, nothing repeated after the preferred ones |
| CmapTables.WriteRecords | LoboPDF/src/main/java/org/loboevolution/pdfview/font/ttf/CmapTable.java:166-175 | the record loop writes the records with the running offset |
| CmapTables.WriteBodies | LoboPDF/src/main/java/org/loboevolution/pdfview/font/ttf/CmapTable.java:178-180 | the body loop writes the bodies in key order |
| CmapTables.AppendFresh | LoboPDF/src/main/java/org/loboevolution/pdfview/font/ttf/CmapTable.java:98-102 | the loop appends each map not already collected |
| CmapTables.CmapTable.constructor | LoboPDF/src/main/java/org/loboevolution/pdfview/font/ttf/CmapTable.java:49-55 | a new table has version 0 and no subtables |
| CmapTables.CmapTable.AddCMap | LoboPDF/src/main/java/org/loboevolution/pdfview/font/ttf/CmapTable.java:64-68 | the subtables become the put of the key and map, still sorted |
| CmapTables.CmapTable.GetCMap | LoboPDF/src/main/java/org/loboevolution/pdfview/font/ttf/CmapTable.java:77-80 | the map stored under the key, or null when no entry has it |
| CmapTables.CmapTable.RemoveCMap | LoboPDF/src/main/java/org/loboevolution/pdfview/font/ttf/CmapTable.java:117-120 | the subtables become the remove of the key, still sorted |
| CmapTables.CmapTable.GetNumberSubtables | LoboPDF/src/main/java/org/loboevolution/pdfview/font/ttf/CmapTable.java:235-237 | the count, when it fits a short |
| CmapTables.CmapTable.SetVersion | LoboPDF/src/main/java/org/loboevolution/pdfview/font/ttf/CmapTable.java:226-228 | the version becomes the argument |
| CmapTables.CmapTable.GetCMaps | LoboPDF/src/main/java/org/loboevolution/pdfview/font/ttf/CmapTable.java:87-109 | (3,1) first and (1,0) second when present, then each other map once in key order; every map of the table and no other |
| CmapTables.CmapTable.GetLength | LoboPDF/src/main/java/org/loboevolution/pdfview/font/ttf/CmapTable.java:195-209 | 4 + 8n + the sum of the map lengths, in 32-bit int arithmetic |
| CmapTables.CmapTable.GetData | LoboPDF/src/main/java/org/loboevolution/pdfview/font/ttf/CmapTable.java:157-188 | the header, the records with running offsets and the bodies; a failure when the length does not fit an int |
| CmapTables.CmapTable.SetData | LoboPDF/src/main/java/org/loboevolution/pdfview/font/ttf/CmapTable.java:123-154 | reads the version and count, then each record, adding the maps that parse; a short buffer or a bad offset fails as the buffer does |
| Dom.NamesIgnoreCase | LoboHtml/src/main/java/org/loboevolution/html/dom/domimpl/ElementImpl.java:117-123 | names that normalise alike address the same entry |
| Dom.StoreKeepsKeysNormalized | LoboHtml/src/main/java/org/loboevolution/html/dom/domimpl/ElementImpl.java:314-366 | setting or removing an attribute keeps every key of the map a normalised name |
| Dom.HasAttributesIff | LoboHtml/src/main/java/org/loboevolution/html/dom/domimpl/ElementImpl.java:296-301 | hasAttributes holds exactly when some name answers hasAttribute |
| Dom.EqualAttributesIff | LoboHtml/src/main/java/org/loboevolution/html/dom/domimpl/ElementImpl.java:93-109 | for normalised keys, equal attributes exactly when every name gets the same getAttribute and hasAttribute answers from both elements |
| Dom.GetPut | LoboHtml/src/main/java/org/loboevolution/html/dom/domimpl/ElementImpl.java:341-349 | after setAttribute, the name (in any case) has the value, and other names are unchanged |
| Dom.GetDelete | LoboHtml/src/main/java/org/loboevolution/html/dom/domimpl/ElementImpl.java:315-323 | after removeAttribute, only that name is gone |
| Dom.OuterNewHtml | LoboHtml/src/main/java/org/loboevolution/html/dom/domimpl/ElementImpl.java:804-809 | null gives ""; text ending in ">" or not starting with "<" is unchanged; otherwise ">" is appended |
| Dom.OuterNewHtmlIdempotent | LoboHtml/src/main/java/org/loboevolution/html/dom/domimpl/ElementImpl.java:804-809 | applying outerNewHtml twice is the same as once |
| Dom.AttributeShown | LoboHtml/src/main/java/org/loboevolution/html/dom/domimpl/ElementImpl.java:781-792 | when the iteration order lists each key of the map once, every attribute with a non-null value appears as k="encoded value", and its key is among the written keys exactly once; a null-valued key is not among them |
| Dom.AttributesTextPieces | LoboHtml/src/main/java/org/loboevolution/html/dom/domimpl/ElementImpl.java:781-792 | the attribute text is the k="v" texts of the written keys, in iteration order |
| Dom.ShownKeysCount | LoboHtml/src/main/java/org/loboevolution/html/dom/domimpl/ElementImpl.java:781-792 | a key with a non-null value is written as often as the iteration visits it, and a null-valued or missing key never |
| Dom.NullAttributesOmitted | LoboHtml/src/main/java/org/loboevolution/html/dom/domimpl/ElementImpl.java:784 | attributes whose values are all null emit nothing |
| Dom.KeptTextBlank | LoboHtml/src/main/java/org/loboevolution/html/dom/domimpl/ElementImpl.java:233-265 | the concatenation of the non-blank pieces is blank only when it is empty |
| Dom.LocalStyleOf | LoboHtml/src/main/java/org/loboevolution/html/dom/domimpl/HTMLElementImpl.java:428-453 | a blank or unparsable style attribute gives an empty properties object; a parsed one gives exactly its declarations; never an error |
| Dom.Document.constructor | LoboHtml/src/main/java/org/loboevolution/html/dom/domimpl/ElementImpl.java:77-86 | a document starts with empty id and name tables; the document is reduced to these two tables, the only part of it the registration code uses |
| Dom.ParentIsNearestAncestor | LoboHtml/src/main/java/org/loboevolution/html/dom/domimpl/HTMLElementImpl.java:181-197 | a matching parent is the ancestor found; "*" finds the parent; otherwise the search goes on from the parent |
| Dom.EqualAttributesAnswerAlike | LoboHtml/src/main/java/org/loboevolution/html/dom/domimpl/ElementImpl.java:93-109 | equal attributes is symmetric, and such elements answer every getAttribute, hasAttribute and getAttributeAsBoolean alike |
| Dom.Element.constructor | LoboHtml/src/main/java/org/loboevolution/html/dom/domimpl/ElementImpl.java:62-64 | a new element has no attributes, no id, empty style slots and no parent; its children point to it |
| Dom.Element.GetAttribute | LoboHtml/src/main/java/org/loboevolution/html/dom/domimpl/ElementImpl.java:117-123 | a value only for a present entry, and then the value stored under the normalised name |
| Dom.Element.HasAttribute | LoboHtml/src/main/java/org/loboevolution/html/dom/domimpl/ElementImpl.java:286-292 | true exactly when the normalised name has an entry, whatever its value |
| Dom.Element.HasAttributes | LoboHtml/src/main/java/org/loboevolution/html/dom/domimpl/ElementImpl.java:296-301 | true exactly when the map is not empty |
| Dom.Element.EqualAttributes | LoboHtml/src/main/java/org/loboevolution/html/dom/domimpl/ElementImpl.java:93-109 | false for a node that is not an element; when true, every name gets the same getAttribute and hasAttribute answers |
| Dom.Element.GetAttributeAsBoolean | LoboHtml/src/main/java/org/loboevolution/html/dom/domimpl/HTMLElementImpl.java:221-223 | true only for a present attribute, and then exactly when its value is non-null |
| Dom.Element.GetAncestor | LoboHtml/src/main/java/org/loboevolution/html/dom/domimpl/HTMLElementImpl.java:181-197 | null exactly when no element above matches; otherwise the nearest element above that matches the lowered tag name (any for "*") |
| Dom.Element.GetParent | LoboHtml/src/main/java/org/loboevolution/html/dom/domimpl/HTMLElementImpl.java:396-411 | the parent when it is an element that matches, and null otherwise |
| Dom.Element.GetAttributeNode | LoboHtml/src/main/java/org/loboevolution/html/dom/domimpl/ElementImpl.java:111-134 | a node exactly for a non-null value, with the normalised name, and marked as an id exactly for "id" |
| Dom.Element.GetId | LoboHtml/src/main/java/org/loboevolution/html/dom/domimpl/ElementImpl.java:168-171 | "" when the id was never set, the id otherwise |
| Dom.Element.GetClassName | LoboHtml/src/main/java/org/loboevolution/html/dom/domimpl/ElementImpl.java:516-519 | "" with no class attribute, its value otherwise |
| Dom.Element.SetIdAttribute | LoboHtml/src/main/java/org/loboevolution/html/dom/domimpl/ElementImpl.java:390-395 | passes exactly when the name normalises to "id"; otherwise NOT_SUPPORTED_ERR |
| Dom.Element.SetIdAttributeNode | LoboHtml/src/main/java/org/loboevolution/html/dom/domimpl/ElementImpl.java:399-404 | passes exactly when the attribute's name normalises to "id"; otherwise NOT_SUPPORTED_ERR |
| Dom.Element.RegisterIdOrName | LoboHtml/src/main/java/org/loboevolution/html/dom/domimpl/ElementImpl.java:71-89 | "id" sets the id field; with a document, "id" and "name" register the element in the id table, and "name" also updates the name table |
| Dom.Element.AssignAttributeField | LoboHtml/src/main/java/org/loboevolution/html/dom/domimpl/HTMLElementImpl.java:98-107 | the full invalidation when notifications run; when suspended, only a "style" change forgets the element's own slots; then the registration |
| Dom.Element.InvalidateStyles | LoboHtml/src/main/java/org/loboevolution/html/dom/domimpl/HTMLElementImpl.java:99-105 | the style-slot part of assignAttributeField |
| Dom.Element.SetAttribute | LoboHtml/src/main/java/org/loboevolution/html/dom/domimpl/ElementImpl.java:341-352 | the map gains the normalised name with the value, the slots are invalidated, the id and tables are updated; a "name" leaves the old name table plus the new entry |
| Dom.Element.RegisterIdOrNameFrom | LoboHtml/src/main/java/org/loboevolution/html/dom/domimpl/ElementImpl.java:71-90 | the intended registration: the id field and id table as written, and the entry under the previous name leaves the name table |
| Dom.Element.SetAttributeIntended | LoboHtml/src/main/java/org/loboevolution/html/dom/domimpl/ElementImpl.java:341-351 | setAttribute reading the previous name first: the previous name leaves the name table and the new one maps to the element |
| Dom.StaleNameEntry | LoboHtml/src/main/java/org/loboevolution/html/dom/domimpl/ElementImpl.java:81-85 | as written, a previous name different from the new one keeps its name-table entry |
| Dom.NameTableIntended | LoboHtml/src/main/java/org/loboevolution/html/dom/domimpl/ElementImpl.java:81-85 | with the previous name read first, its entry leaves the table, the new name maps to the element, and other entries stay |
| Dom.Element.SetAttributeNode | LoboHtml/src/main/java/org/loboevolution/html/dom/domimpl/ElementImpl.java:356-368 | as setAttribute with the node's name and value, returning the node |
| Dom.Element.SetClassName | LoboHtml/src/main/java/org/loboevolution/html/dom/domimpl/ElementImpl.java:523-525 | the class attribute becomes the argument and getClassName returns it |
| Dom.Element.RemoveAttributeIntended | LoboHtml/src/main/java/org/loboevolution/html/dom/domimpl/ElementImpl.java:315-323 | the intended removal: the entry is deleted, the style slots are invalidated as for an assignment, and "id" clears the id field |
| Dom.Element.RemoveThenGetStyle | LoboHtml/src/main/java/org/loboevolution/html/dom/domimpl/ElementImpl.java:315-323 | after the intended removal of "style" the next getStyle builds an empty local style, and after removing "id" getId is "" |
| Dom.StaleStyleAfterRemove | LoboHtml/src/main/java/org/loboevolution/html/dom/domimpl/ElementImpl.java:315-323 | the local style removeAttribute("style") keeps, built from the removed attribute, differs from what getStyle builds from the remaining attributes |
| Dom.Element.RemoveAttribute | LoboHtml/src/main/java/org/loboevolution/html/dom/domimpl/ElementImpl.java:315-323 | only the normalised name is deleted; nothing else changes |
| Dom.Element.RemoveAttributeNode | LoboHtml/src/main/java/org/loboevolution/html/dom/domimpl/ElementImpl.java:327-337 | deletes the name and returns its old node (null for a null or missing value) |
| Dom.Element.AppendOuterHtml | LoboHtml/src/main/java/org/loboevolution/html/dom/domimpl/ElementImpl.java:777-802 | for an iteration order that visits each key of the map once, "<" + upper-cased tag + the non-null attributes, then "/>" with no children or ">" + inner + "</TAG>" |
| Dom.Element.ChildTexts | LoboHtml/src/main/java/org/loboevolution/html/dom/domimpl/ElementImpl.java:235-264 | one text per child |
| Dom.Element.InnerTextBlank | LoboHtml/src/main/java/org/loboevolution/html/dom/domimpl/ElementImpl.java:233-265 | the raw inner text is blank only when it is empty |
| Dom.Element.RawInnerText | LoboHtml/src/main/java/org/loboevolution/html/dom/domimpl/ElementImpl.java:233-265 | the loop gives the concatenation of the non-blank texts, element texts and (when asked) comment texts |
| Dom.Element.Preorder | LoboHtml/src/main/java/org/loboevolution/html/dom/domimpl/HTMLFormElementImpl.java:114-126 | the visit order starts at the element itself |
| Dom.Element.FindStyleDeclarations | LoboHtml/src/main/java/org/loboevolution/html/dom/domimpl/HTMLElementImpl.java:133-143 | no document gives no rules and no hover change; otherwise the aggregator's rules and hover answer |
| Dom.Element.AddStyleSheetDeclarations | LoboHtml/src/main/java/org/loboevolution/html/dom/domimpl/HTMLElementImpl.java:77-94 | with no parent the style is returned unchanged; otherwise the matched declarations are appended in aggregator order |
| Dom.Element.GetStyle | LoboHtml/src/main/java/org/loboevolution/html/dom/domimpl/HTMLElementImpl.java:428-453 | a cached local style is returned unchanged; otherwise the parsed style attribute is cached and returned |
| Dom.Element.InstallCurrentStyle | LoboHtml/src/main/java/org/loboevolution/html/dom/domimpl/HTMLElementImpl.java:317-324 | the first installed current style wins |
| Dom.Element.GetCurrentStyle | LoboHtml/src/main/java/org/loboevolution/html/dom/domimpl/HTMLElementImpl.java:303-325 | a cached current style is returned untouched; otherwise defaults then rules with the local style on top are installed and returned |
| Dom.Element.InstallComputedStyle | LoboHtml/src/main/java/org/loboevolution/html/dom/domimpl/HTMLElementImpl.java:283-293 | an existing entry for the key is returned and never overwritten; otherwise the new one is added under the key |
| Dom.Element.GetComputedStyle | LoboHtml/src/main/java/org/loboevolution/html/dom/domimpl/HTMLElementImpl.java:253-294 | a null pseudo-element is the key ""; a cached entry is returned untouched; otherwise the computed style is cached per key |
| Dom.Element.ForgetLocalStyle | LoboHtml/src/main/java/org/loboevolution/html/dom/domimpl/HTMLElementImpl.java:148-154 | all three slots are cleared |
| Dom.Element.ForgetStyle | LoboHtml/src/main/java/org/loboevolution/html/dom/domimpl/HTMLElementImpl.java:161-173 | current and computed styles are cleared, and with deep in every descendant too; without deep the descendants are untouched |
| Dom.Element.ForgetChildren | LoboHtml/src/main/java/org/loboevolution/html/dom/domimpl/HTMLElementImpl.java:166-171 | the loop over the children clears every descendant |
| Dom.Element.InformInvalid | LoboHtml/src/main/java/org/loboevolution/html/dom/domimpl/HTMLElementImpl.java:457-461 | clears the element's own current and computed styles, not its descendants' |
| Dom.Element.InformInvalidAttribute | LoboHtml/src/main/java/org/loboevolution/html/dom/domimpl/HTMLElementImpl.java:468-475 | the local style is cleared only for "style"; current and computed styles are cleared over the subtree |
| Dom.Element.SetMouseOver | LoboHtml/src/main/java/org/loboevolution/html/dom/domimpl/HTMLElementImpl.java:513-526 | a no-op without hover rules; hovering installs the default style with the hover rules; leaving forgets the subtree's styles |
| Css.AddDeclaration | LoboHtml/src/main/java/org/loboevolution/html/dom/domimpl/HTMLElementImpl.java:88-90 | one declaration block appended, the local slot kept |
| Css.WithLocal | LoboHtml/src/main/java/org/loboevolution/html/dom/domimpl/HTMLElementImpl.java:320 | the local style set on top, the declarations kept |
| Css.WithRules | LoboHtml/src/main/java/org/loboevolution/html/dom/domimpl/HTMLElementImpl.java:77-94 | no rules leave the style as it is; otherwise the rules follow the existing declarations |
| Css.WithRulesStep | LoboHtml/src/main/java/org/loboevolution/html/dom/domimpl/HTMLElementImpl.java:86-91 | appending one more rule is the loop's next step |
| TokenList.IndexOf | LoboHtml/src/main/java/org/loboevolution/html/dom/domimpl/DOMTokenListImpl.java:199 | -1 exactly when absent; otherwise the first position of the token |
| TokenList.RemoveFirstCount | LoboHtml/src/main/java/org/loboevolution/html/dom/domimpl/DOMTokenListImpl.java:112 | removing takes out exactly one occurrence when present, nothing otherwise |
| TokenList.CheckToken | LoboHtml/src/main/java/org/loboevolution/html/dom/domimpl/DOMTokenListImpl.java:77-131 | a failure is INVALID_CHARACTER_ERR, and a passing token is non-empty |
| TokenList.TokensOf | LoboHtml/src/main/java/org/loboevolution/html/dom/domimpl/DOMTokenListImpl.java:186-190 | the whitespace-separated pieces, in order |
| TokenList.AddAppends | LoboHtml/src/main/java/org/loboevolution/html/dom/domimpl/DOMTokenListImpl.java:74-96 | null or contained changes nothing; a valid absent token appends its trimmed form; failure exactly for a blank or spaced token, as INVALID_CHARACTER_ERR |
| TokenList.AddIdempotent | LoboHtml/src/main/java/org/loboevolution/html/dom/domimpl/DOMTokenListImpl.java:74-96 | adding the same token twice is adding it once |
| TokenList.AddClassContainsToken | LoboHtml/src/main/java/org/loboevolution/html/dom/domimpl/DOMTokenListImpl.java:86-94 | after an add the class name contains the token, whether or not it was written |
| TokenList.RemoveDeletesFirst | LoboHtml/src/main/java/org/loboevolution/html/dom/domimpl/DOMTokenListImpl.java:100-117 | null changes nothing; fails exactly for an invalid token; otherwise deletes the first occurrence of the trimmed token |
| TokenList.ToggleAnswer | LoboHtml/src/main/java/org/loboevolution/html/dom/domimpl/DOMTokenListImpl.java:121-148 | true exactly when the token was absent and is now appended; false after removing it; false for null with no change |
| TokenList.ToggleTwice | LoboHtml/src/main/java/org/loboevolution/html/dom/domimpl/DOMTokenListImpl.java:121-148 | toggling a valid absent token twice restores the list |
| TokenList.ReplaceFirst | LoboHtml/src/main/java/org/loboevolution/html/dom/domimpl/DOMTokenListImpl.java:197-206 | true exactly for a non-blank present old token and a blank new one, overwriting the first occurrence; otherwise no change |
| TokenList.SpaceTerminatedJoin | LoboHtml/src/main/java/org/loboevolution/html/dom/domimpl/DOMTokenListImpl.java:113-115 | the space-terminated string is the space-joined tokens plus one space |
| TokenList.TrimmedIsValue | LoboHtml/src/main/java/org/loboevolution/html/dom/domimpl/DOMTokenListImpl.java:163-178 | for well-formed tokens, the trimmed write-back equals getValue |
| TokenList.AddKeepsWellFormed | LoboHtml/src/main/java/org/loboevolution/html/dom/domimpl/DOMTokenListImpl.java:74-96 | add keeps every token non-null, non-empty and with nothing to trim at either end |
| TokenList.RemoveKeepsWellFormed | LoboHtml/src/main/java/org/loboevolution/html/dom/domimpl/DOMTokenListImpl.java:100-117 | remove keeps the list well formed |
| TokenList.ToggleKeepsWellFormed | LoboHtml/src/main/java/org/loboevolution/html/dom/domimpl/DOMTokenListImpl.java:121-148 | toggle keeps the list well formed |
| TokenList.SetThenGetValue | LoboHtml/src/main/java/org/loboevolution/html/dom/domimpl/DOMTokenListImpl.java:163-191 | getValue after setValue is the pieces joined by single spaces, and tokenising it again gives the same pieces |
| TokenList.SplitSpacesPieces | LoboHtml/src/main/java/org/loboevolution/html/dom/domimpl/ElementImpl.java:505 | String.split(" "): one piece for a text without a space; otherwise the space-separated pieces up to the last non-empty one, none holding a space, whose space-join with the dropped empty pieces is the text, and no pieces exactly for a non-empty run of spaces |
| TokenList.SplitSpacesTrailingExample | LoboHtml/src/main/java/org/loboevolution/html/dom/domimpl/ElementImpl.java:505 | "a " splits into ["a"] |
| TokenList.SplitSpacesLeadingExample | LoboHtml/src/main/java/org/loboevolution/html/dom/domimpl/ElementImpl.java:505 | " a" splits into ["", "a"], keeping the leading empty piece |
| TokenList.SplitSpacesBlankExample | LoboHtml/src/main/java/org/loboevolution/html/dom/domimpl/ElementImpl.java:505 | " " splits into no piece and "" into one empty piece |
| TokenList.SplitPiecesOccur | LoboHtml/src/main/java/org/loboevolution/html/dom/domimpl/ElementImpl.java:505 | every piece occurs in the class name |
| TokenList.PopulatePieceWritesNothing | LoboHtml/src/main/java/org/loboevolution/html/dom/domimpl/ElementImpl.java:504-510 | populating from the element's own class name never rewrites it |
| TokenList.SpaceTerminatedText | LoboHtml/src/main/java/org/loboevolution/html/dom/domimpl/DOMTokenListImpl.java:113-114 | the forEach loop builds each token followed by a space |
| TokenList.GetClassList | LoboHtml/src/main/java/org/loboevolution/html/dom/domimpl/ElementImpl.java:501-512 | a fresh list bound to the element, holding the populated pieces of a non-blank class name; the element's attributes, id and styles are unchanged |
| TokenList.DomTokenList.constructor | LoboHtml/src/main/java/org/loboevolution/html/dom/domimpl/DOMTokenListImpl.java:44-47 | an empty list bound to the element |
| TokenList.DomTokenList.Length | LoboHtml/src/main/java/org/loboevolution/html/dom/domimpl/DOMTokenListImpl.java:51-53 | the number of tokens |
| TokenList.DomTokenList.ContainsToken | LoboHtml/src/main/java/org/loboevolution/html/dom/domimpl/DOMTokenListImpl.java:66-68 | true exactly when the untrimmed token is in the list, that is when its index is not -1 |
| TokenList.DomTokenList.Item | LoboHtml/src/main/java/org/loboevolution/html/dom/domimpl/DOMTokenListImpl.java:57-62 | null out of range, otherwise the index-th token |
| TokenList.DomTokenList.Store | LoboHtml/src/main/java/org/loboevolution/html/dom/domimpl/DOMTokenListImpl.java:113-115 | the list takes the new tokens and the class name becomes the trimmed space-joined text, which is getValue for well-formed tokens |
| TokenList.DomTokenList.ToString | LoboHtml/src/main/java/org/loboevolution/html/dom/domimpl/DOMTokenListImpl.java:228-232 | the trimmed space-joined tokens, equal to getValue for well-formed tokens |
| TokenList.DomTokenList.Add | LoboHtml/src/main/java/org/loboevolution/html/dom/domimpl/DOMTokenListImpl.java:74-96 | the list becomes the add of the token, or INVALID_CHARACTER_ERR with no change; the class name is written as the source writes it |
| TokenList.DomTokenList.Remove | LoboHtml/src/main/java/org/loboevolution/html/dom/domimpl/DOMTokenListImpl.java:100-117 | the list becomes the remove of the token, or the error with no change; the class name becomes the joined tokens |
| TokenList.DomTokenList.Toggle | LoboHtml/src/main/java/org/loboevolution/html/dom/domimpl/DOMTokenListImpl.java:121-148 | the list and answer are the toggle's, or the error with no change; the class name becomes the joined tokens |
| TokenList.DomTokenList.ToggleForce | LoboHtml/src/main/java/org/loboevolution/html/dom/domimpl/DOMTokenListImpl.java:152-159 | returns force; add when true, remove when false, with the list, the failure and the class attribute written exactly as add or remove writes them |
| TokenList.DomTokenList.GetValue | LoboHtml/src/main/java/org/loboevolution/html/dom/domimpl/DOMTokenListImpl.java:163-178 | "" when empty, otherwise the tokens separated by single spaces |
| TokenList.DomTokenList.SetValue | LoboHtml/src/main/java/org/loboevolution/html/dom/domimpl/DOMTokenListImpl.java:182-191 | null is SYNTAX_ERR with no change; otherwise the list becomes the pieces of the value, the class attribute untouched |
| TokenList.DomTokenList.Replace | LoboHtml/src/main/java/org/loboevolution/html/dom/domimpl/DOMTokenListImpl.java:197-206 | the list and answer of the replace |
| TokenList.DomTokenList.Supports | LoboHtml/src/main/java/org/loboevolution/html/dom/domimpl/DOMTokenListImpl.java:210-213 | always false |
| TokenList.DomTokenList.Populate | LoboHtml/src/main/java/org/loboevolution/html/dom/domimpl/DOMTokenListImpl.java:215-225 | a non-blank absent token without tabs is added; the class name is extended when it does not contain the token |
| HtmlForm.IsInputOnElements | LoboHtml/src/main/java/org/loboevolution/html/dom/domimpl/HTMLFormElementImpl.java:42-45 | only elements are inputs, and the test ignores the case of the tag name |
| HtmlForm.Inputs | LoboHtml/src/main/java/org/loboevolution/html/dom/domimpl/HTMLFormElementImpl.java:119 | the inputs in visit order, each an input |
| HtmlForm.InputsAppend | LoboHtml/src/main/java/org/loboevolution/html/dom/domimpl/HTMLFormElementImpl.java:119 | the inputs of a concatenation are the concatenated inputs |
| HtmlForm.CollectedIff | LoboHtml/src/main/java/org/loboevolution/html/dom/domimpl/HTMLFormElementImpl.java:219-231 | collecting fails exactly when some visited element has an input without a name; on success every input has a name |
| HtmlForm.CollectedPrefixFails | LoboHtml/src/main/java/org/loboevolution/html/dom/domimpl/HTMLFormElementImpl.java:224-226 | an unnamed input met early makes the whole collection fail |
| HtmlForm.ItemIn | LoboHtml/src/main/java/org/loboevolution/html/dom/domimpl/HTMLFormElementImpl.java:112-131 | the visitor with its counter gives the index-th input, or null when there are fewer |
| HtmlForm.NamedIn | LoboHtml/src/main/java/org/loboevolution/html/dom/domimpl/HTMLFormElementImpl.java:133-147 | the first input in visit order whose name attribute equals the name, or null when none has it |
| HtmlForm.CollectIn | LoboHtml/src/main/java/org/loboevolution/html/dom/domimpl/HTMLFormElementImpl.java:219-231 | the visit loop collects exactly the specified inputs, or fails on an unnamed one |
| HtmlForm.HtmlCollection.constructor | LoboHtml/src/main/java/org/loboevolution/html/dom/domimpl/HTMLFormElementImpl.java:73 | the collection is rooted at the form |
| HtmlForm.Form.constructor | LoboHtml/src/main/java/org/loboevolution/html/dom/domimpl/HTMLFormElementImpl.java:51-57 | no collection yet |
| HtmlForm.Form.GetElements | LoboHtml/src/main/java/org/loboevolution/html/dom/domimpl/HTMLFormElementImpl.java:70-77 | the first call creates and caches a collection rooted at the form; later calls return the same object |
| HtmlForm.Form.GetMethod | LoboHtml/src/main/java/org/loboevolution/html/dom/domimpl/HTMLFormElementImpl.java:90-96 | "GET" without a method attribute, its value otherwise |
| HtmlForm.Form.Item | LoboHtml/src/main/java/org/loboevolution/html/dom/domimpl/HTMLFormElementImpl.java:112-131 | the index-th input of the form in visit order, or null |
| HtmlForm.Form.NamedItem | LoboHtml/src/main/java/org/loboevolution/html/dom/domimpl/HTMLFormElementImpl.java:133-147 | the first named input of the form in visit order, or null |
| HtmlForm.Form.Submit | LoboHtml/src/main/java/org/loboevolution/html/dom/domimpl/HTMLFormElementImpl.java:203-231 | a handler answering false cancels; no context submits nothing; otherwise the extra inputs then the visited inputs, or the error for an unnamed input |
| ContextFactories.HasFeature | LoboParser/src/main/java/org/mozilla/javascript/ContextFactory.java:242-325 | an unknown feature index is IllegalArgumentException, and every known index has an answer |
| ContextFactories.NonEcmaGetYear | LoboParser/src/main/java/org/mozilla/javascript/ContextFactory.java:246-261 | true exactly for versions 1.0, 1.1 and 1.2 |
| ContextFactories.E4X | LoboParser/src/main/java/org/mozilla/javascript/ContextFactory.java:276-279 | true exactly for the default version or versions 1.6 and above, false exactly otherwise |
| ContextFactories.VersionIndependent | LoboParser/src/main/java/org/mozilla/javascript/ContextFactory.java:263-321 | every feature outside the version-dependent ones has the same answer for all versions |
| ContextFactories.VersionsOneTwoAndES6 | LoboParser/src/main/java/org/mozilla/javascript/ContextFactory.java:246-309 | each version-dependent feature answers differently for version 1.2 and for ES6 |
| ContextFactories.LastIndexOf | LoboParser/src/main/java/org/mozilla/javascript/ContextFactory.java:521 | -1 exactly when absent, otherwise the last position of the listener |
| ContextFactories.WithListener | LoboParser/src/main/java/org/mozilla/javascript/ContextFactory.java:505 | the listener appended at the end |
| ContextFactories.WithoutListenerCount | LoboParser/src/main/java/org/mozilla/javascript/ContextFactory.java:521 | removing takes out exactly one occurrence when present, nothing otherwise |
| ContextFactories.RemoveUndoesAdd | LoboParser/src/main/java/org/mozilla/javascript/ContextFactory.java:505-521 | removing a listener just added restores the list |
| ContextFactories.ClassLoader.constructor | LoboParser/src/main/java/org/mozilla/javascript/ContextFactory.java:415 | a loader records whether it can load the engine's classes |
| ContextFactories.ContextFactory.constructor | LoboParser/src/main/java/org/mozilla/javascript/ContextFactory.java:116-121 | unsealed, no listeners, listening enabled, no class loader |
| ContextFactories.ContextFactory.CheckNotSealed | LoboParser/src/main/java/org/mozilla/javascript/ContextFactory.java:564-567 | IllegalStateException exactly when sealed |
| ContextFactories.ContextFactory.Seal | LoboParser/src/main/java/org/mozilla/javascript/ContextFactory.java:555-559 | the factory is sealed afterwards; sealing a sealed factory fails |
| ContextFactories.ContextFactory.AddListener | LoboParser/src/main/java/org/mozilla/javascript/ContextFactory.java:498-507 | IllegalStateException when sealed or disabled; a null listener is IllegalArgumentException; otherwise appended; the invariant is kept |
| ContextFactories.ContextFactory.RemoveListener | LoboParser/src/main/java/org/mozilla/javascript/ContextFactory.java:514-523 | IllegalStateException when sealed or disabled; a null listener is IllegalArgumentException; otherwise the last occurrence is removed; the invariant is kept |
| ContextFactories.ContextFactory.DisableContextListening | LoboParser/src/main/java/org/mozilla/javascript/ContextFactory.java:529-536 | fails when sealed; otherwise listening is disabled and the listeners dropped |
| ContextFactories.ContextFactory.InitApplicationClassLoader | LoboParser/src/main/java/org/mozilla/javascript/ContextFactory.java:411-425 | IllegalArgumentException for null or a loader that cannot load the engine; IllegalStateException when already set or sealed; otherwise the loader is set |
| ContextFactories.Globals.constructor | LoboParser/src/main/java/org/mozilla/javascript/ContextFactory.java:113-114 | a fresh default global, not custom |
| ContextFactories.Globals.InitGlobal | LoboParser/src/main/java/org/mozilla/javascript/ContextFactory.java:177-187 | null is IllegalArgumentException; a second call is IllegalStateException; otherwise the global is custom and is the factory |
| ContextFactories.Globals.GetGlobalSetter | LoboParser/src/main/java/org/mozilla/javascript/ContextFactory.java:199-215 | fails once the global is custom; otherwise marks it custom and returns a new setter |
| ContextFactories.GlobalSetter.constructor | LoboParser/src/main/java/org/mozilla/javascript/ContextFactory.java:204-214 | the setter works on the process-wide global |
| ContextFactories.GlobalSetter.SetContextFactoryGlobal | LoboParser/src/main/java/org/mozilla/javascript/ContextFactory.java:206-208 | null installs a fresh default factory; otherwise the given factory |
| ContextFactories.GlobalSetter.GetContextFactoryGlobal | LoboParser/src/main/java/org/mozilla/javascript/ContextFactory.java:210-212 | returns the current global |
| TagNameFilters.TagNameFilter.Accept | LoboHtml/src/main/java/org/loboevolution/html/dom/filter/TagNameFilter.java:47-53 | false for any node that is not an element; for an element, true exactly when the names agree ignoring case |
| TagNameFilters.AcceptIgnoresCase | LoboHtml/src/main/java/org/loboevolution/html/dom/filter/TagNameFilter.java:52 | filters whose names differ only in case accept the same nodes |
| TagNameFilters.AcceptOwnName | LoboHtml/src/main/java/org/loboevolution/html/dom/filter/TagNameFilter.java:41-53 | a filter built from an element's tag name accepts it |
| InputControls.Direction | LoboHtml/src/main/java/org/loboevolution/html/control/InputControl.java:68-76 | "ltr" in any case is left-to-right, "rtl" in any case is right-to-left, anything else including null is unknown |
| InputControls.KeywordsIgnoringCase | LoboHtml/src/main/java/org/loboevolution/html/control/InputControl.java:69-72 | equalsIgnoreCase with "ltr" or "rtl" is equality of the lower-cased text |
| InputControls.DirectionIgnoresCase | LoboHtml/src/main/java/org/loboevolution/html/control/InputControl.java:68-76 | upper-casing the argument does not change the direction |
| ScriptRuntimeES6.RequireObjectCoercible | LoboParser/src/main/java/org/mozilla/javascript/ScriptRuntimeES6.java:25-30 | a type error exactly for null and undefined, carrying the message id, tag and function name; otherwise the value unchanged |
| ScriptRuntimeES6.RequireObjectCoercibleIdempotent | LoboParser/src/main/java/org/mozilla/javascript/ScriptRuntimeES6.java:25-30 | checking a value that passed again passes with the same value |
| ScrollButtons.ScrollButton.PreferredSize | LoboJTattoo/src/main/java/com/jtattoo/plaf/BaseScrollButton.java:84-95 | north and south give (w, w+1), east and west give (w+1, w), any other direction gives (0, 0), in int arithmetic |
| ScrollButtons.ScrollButton.MinimumSize | LoboJTattoo/src/main/java/com/jtattoo/plaf/BaseScrollButton.java:78-80 | equals the preferred size |
| ScrollButtons.ScrollButton.MaximumSize | LoboJTattoo/src/main/java/com/jtattoo/plaf/BaseScrollButton.java:72-74 | (MAX_INT, MAX_INT) |
| ScrollButtons.PreferredSizeTurns | LoboJTattoo/src/main/java/com/jtattoo/plaf/BaseScrollButton.java:86-91 | a vertical button's size is a horizontal one's turned on its side |
| ScrollButtons.PreferredSizeLongSide | LoboJTattoo/src/main/java/com/jtattoo/plaf/BaseScrollButton.java:86-88 | the long side is w+1, which wraps to the least int at w = MAX_INT |
| ScrollButtons.MinimumSizeShape | LoboJTattoo/src/main/java/com/jtattoo/plaf/BaseScrollButton.java:78-95 | for a compass direction and 0 <= w < MAX_INT, both sides of the minimum size are non-negative, one is w and the other w+1 |
| Comments.Indent | LoboParser/src/main/java/org/mozilla/javascript/ast/Comment.java:82 | two spaces per level, and none for depth 0 or less |
| Comments.Comment.constructor | LoboParser/src/main/java/org/mozilla/javascript/ast/Comment.java:34-38 | position, length, type and value as given |
| Comments.Comment.SetCommentType | LoboParser/src/main/java/org/mozilla/javascript/ast/Comment.java:55-57 | the type becomes the argument, the value unchanged |
| Comments.Comment.SetValue | LoboParser/src/main/java/org/mozilla/javascript/ast/Comment.java:73-76 | the value is stored; the length becomes the value's length; null stores null and then fails with a NullPointerException, leaving the length |
| Comments.Comment.ToSource | LoboParser/src/main/java/org/mozilla/javascript/ast/Comment.java:80-88 | a NegativeArraySizeException exactly when the int sum length + 10 is negative (a length below -10 or above MAX_INT - 10); otherwise the indent for the depth, then the value, then "\n" exactly for a block comment |
| Comments.ToSourceDeeper | LoboParser/src/main/java/org/mozilla/javascript/ast/Comment.java:80-88 | one more level of depth puts two more spaces in front, and fails exactly when the shallower one does |
| Comments.IndentSucc | LoboParser/src/main/java/org/mozilla/javascript/ast/Comment.java:82 | the indent grows by two spaces per level |
| JavaText.Trim | LoboHtml/src/main/java/org/loboevolution/html/dom/domimpl/DOMTokenListImpl.java:76 | the trimmed text is a slice of the input with only trimmable characters before and after it, and no trimmable character at either of its ends |
| JavaText.TrimEmptyIff | LoboHtml/src/main/java/org/loboevolution/html/dom/domimpl/DOMTokenListImpl.java:76-79 | the trimmed text is empty exactly when every character is trimmable |
| JavaText.EqualsIgnoreCaseIsLowerEquality | LoboHtml/src/main/java/org/loboevolution/html/dom/filter/TagNameFilter.java:52 | equalsIgnoreCase is equality of the lower-cased texts |
| JavaText.LowerIdempotent | LoboHtml/src/main/java/org/loboevolution/html/dom/domimpl/HTMLFormElementImpl.java:43 | lower-casing twice is lower-casing once |
| JavaText.TokenizeJoin | LoboHtml/src/main/java/org/loboevolution/html/dom/domimpl/DOMTokenListImpl.java:163-191 | tokenising a space-join of tokens gives the tokens back |
| JavaText.NormalizeIdempotent | LoboHtml/src/main/java/org/loboevolution/html/dom/domimpl/ElementImpl.java:118 | normalising an attribute name twice is normalising it once |
| JavaInt.Wrap32 | LoboPDF/src/main/java/org/loboevolution/pdfview/font/ttf/CmapTable.java:197-205 | an int value is kept as it is; others wrap modulo 2^32 |
| JavaInt.Wrap32Add | LoboPDF/src/main/java/org/loboevolution/pdfview/font/ttf/CmapTable.java:203-206 | wrapping the running sum at each step is wrapping once at the end |

## Findings

In two places the code evidently means something other than what it does. The model follows the code in `Dom.Element.RemoveAttribute` and `Dom.Element.SetAttribute`, and gives the intended behaviour beside it.

| source | as written | input that shows it | evidently intended | confidence | as-written member | corrected member |
|---|---|---|---|---|---|---|
| LoboHtml/src/main/java/org/loboevolution/html/dom/domimpl/ElementImpl.java:315-323 | `removeAttribute` deletes the entry only; the style slots and the `id` field keep what the removed attribute gave them | `setAttribute("style", "color: red")`, `getStyle()`, then `removeAttribute("style")`: the next `getStyle()` still returns the red style | as with `setAttribute`, which follows every change with `assignAttributeField`, a removal invalidates the style slots and removing "id" clears the id field | medium, not executed | Dom.StaleStyleAfterRemove | Dom.Element.RemoveThenGetStyle |
| LoboHtml/src/main/java/org/loboevolution/html/dom/domimpl/ElementImpl.java:81-85 | `oldName` is read after `setAttribute` has stored the new value (ElementImpl.java:349), so it is the new name | an element named "a" renamed to "b": the name table keeps "a" pointing at the element | `oldName` holds the previous name, so its entry leaves the table | high, not executed | Dom.StaleNameEntry | Dom.Element.SetAttributeIntended |

## Left out

### The style cache and the element tree

- Object identity of `AbstractCSSProperties`: a properties object is a value here, so "the same object is returned" is stated as "an equal value is returned and the slot is unchanged". `getComputedStyle` wraps the cached properties in a new `ComputedCSSStyleDeclaration` on every call (HTMLElementImpl.java:253-294); the model returns the cached properties without that wrapper.
- Dom.Document: HTMLDocumentImpl is not part of this model; the document is reduced to the id and name tables that ElementImpl.java:77-86 reads and writes.
- The intended removal does not take the element out of the document's id table; only the id field and the style slots are covered.
- The CSS parser, the stylesheet aggregator and `createDefaultStyleSheet` are foreign code. They are parameters, or fixed per element.
- A parse failure's log warning is left out; its effect is not.
- Concurrency: the `synchronized` blocks and the `volatile` slots are modelled as one sequential thread.
- `NodeImpl.informInvalid`, which forwards to the document and the renderer, is not part of this model. Only the element's own slot clearing is kept.
- The tree structure is fixed at construction. `appendChild`, `setInnerHTML`, `setOuterHTML` and `setInnerText` are left out, because they run the HTML parser.
- Dom.Element.GetAncestor: the parent chain is a ghost argument that lists the ancestors. The source walks the pointers with no bound. Dafny needs the finite chain to know that the recursion ends.
- Dom.Element.GetAncestor and Dom.Element.GetParent: the tag name searched for is never null. In the source a null name reaches `elementTL.equals(...)` on a parent element and raises a `NullPointerException` (HTMLElementImpl.java:189, 404); that exception is not modelled.
- Every element here is an HTML element. An `ElementImpl` that is not an `HTMLElementImpl` would stop `getAncestor`; that case is not modelled.
- `getParentStyle`, `getAncestorForJavaClass`, `click` and the element's form-input list are helpers outside the modelled core. The form inputs of an element are a parameter of `submit`.

### Attribute and string helpers from unseen code

- The attribute map's iteration order (a `HashMap`) is a parameter of `appendOuterHTMLImpl`. It is required to list each key of the map exactly once, as `forEach` does; which order the `HashMap` picks is not modelled.
- `Strings.strictHtmlEncode` is a parameter.
- `Strings.normalizeAttributeName` is ASCII lower-casing.
- `Strings.split`, which `addStyleSheetDeclarations` uses to cut the class name into pieces (HTMLElementImpl.java:84), is not part of this model. It is assumed to split as `StringTokenizer` does, on " \t\n\r\f" (`Tokenize`).
- `Strings.isBlank` means null or empty after trim.
- Only ASCII letters change case. Java's full Unicode case mapping is left out.
- `String.split(" ")` is modelled for the one-character separator only. Its regular-expression cases and its limit argument are left out.
- The keys of the attribute map are normalised names because every modelled write normalises them (`Dom.StoreKeepsKeysNormalized`). `getAttributes` hands out a `NamedNodeMapImpl` over the same map; writes through it are not part of this model.
- The inner HTML of `appendOuterHTMLImpl` is a parameter.

### The class list

- TokenList.DomTokenList.Add: the class-name write-back condition is modelled as the source writes it. Its `!contains("\t") || !contains("\n")` test is nearly always true, and the model keeps it.

### The form element

- The JavaScript `onsubmit` handler runs in the script engine and is given as its answer.
- The renderer context is a flag.
- URL resolution, `getAction`, `getTarget`, `getEnctype` and `context.submitForm` are left out. The model returns the method and the collected inputs that would be submitted.
- HtmlForm.NamedIn and HtmlForm.Form.NamedItem: the name is never null. In the source `namedItem(null)` raises a `NullPointerException` at the first input it visits (HTMLFormElementImpl.java:138) and returns null for a form without inputs; that exception is not modelled.
- `HTMLCollectionImpl`'s own queries (`getLength`, `item`) are not part of this model; only the cached object is.

### The font table

- CmapTables.CmapTable.GetCMaps: when the (3,1) and (1,0) entries hold the very same map object, the source lists it twice. The model's no-repeat property covers only the maps after the preferred ones.
- The `CMap` subtable formats are not modelled. A map is its byte body; its `getLength` is the body's length; `CMap.getMap` is a parameter that may fail.
- The debug log on a failed map is left out.
- `toString` is not modelled, because it only formats text.
- `setData` assumes the buffer's position 0 is the start of the table, as the offsets require. The `ByteBuffer` mark/reset and slice mechanics are reduced to the exceptions they can raise.
- `getVersion` is a field read.

### The script engine factory

- `makeContext`, `doTopCall`, `createClassLoader`, `getE4xImplementationFactory`, `isDom3Present`, `onContextCreated`/`onContextReleased`, and `call`/`enter` are left out, because they are reflection and thread association.
- `Kit.testIfCanLoadRhinoClasses` is a field of the loader.
- `Kit.addListener` and `Kit.removeListener` are not part of this model. They are modelled as appending a listener and removing its last occurrence.
- The `Context.VERSION_*` and `Context.FEATURE_*` constants are not part of this model; the values Rhino gives them are used.
- `hasFeature` takes the language version directly instead of a `Context`.
- `isSealed`, `getApplicationClassLoader`, `getGlobal` and `hasExplicitGlobal` are field reads.

### Small pieces

- The `SwingConstants` direction values are not part of this model; Swing's values are used.
- `BaseScrollButton.paint` is left out, as Swing painting.
- `getButtonWidth` is the field read.
- `AstNode.makeIndent` is not part of this model. It is modelled as two spaces per level.
- Comments.Comment.SetValue: the length is the number of `char`s, as Java's `length()` counts UTF-16 units. Strings here are sequences of characters. A Java string holds at most `Integer.MAX_VALUE` characters, which `SetValue` requires.
- Comments.Comment.ToSource: a `StringBuilder` that would outgrow the heap (an `OutOfMemoryError`) is not modelled; only the negative capacity is.
- The `getValue` and `getCommentType` accessors are field reads.
- TagNameFilters.TagNameFilter.Accept: a filter built with a null name raises a `NullPointerException` in the source. The model's name is never null.
- `ScriptRuntimeES6`: `Undefined.isUndefined` is not part of this model; undefined is one value. The lookup of the error message text is left out; the error carries its message id.
