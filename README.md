# Sub-domain template registry of cal-heatmap, in Dafny

cal-heatmap draws a calendar heatmap as a grid of sub-domain cells (days
inside months, hours inside days, and so on). Each kind of cell is described
by a *template*: a descriptor with a `name`, a granularity `level`, functions
giving a timestamp's `row`, `column` and `position` in the grid, `format`
strings and an `extractUnit` function that maps a timestamp to the start of its
unit. The `SubDomainTemplate` registry keeps these descriptors by name.

This project models:

- **`Templates`** (`templates.dfy`). The descriptor is a datatype. A JavaScript
  property that may be absent is an `Option` field, where `None` stands for
  `undefined`. The field `type` is called `typ` because `type` is a Dafny
  keyword. A factory is a function from the date helper to a descriptor.
- **`Year`** (`year.dfy`). The `year` template: name `"year"`, level 60, row,
  column and both position coordinates constantly 1, format `Y`/`Y`/`in`, and
  an `extractUnit` that is the date helper's start-of-year.
- **`Registry`** (`registry.dfy`). The registry is a class with the `settings`
  table as a `map` field and a `keys` field. `keys` is the order in which
  `Object.keys` lists the table, which is insertion order.
  - `At` and `Has` are reads of the table.
  - `Init` keeps the source's two loops. The first runs the default factories,
    then the user's, and stores each result under its `name`. The second goes
    over the key list as it stood after registration and stores an `x_` mirror
    for each key.
  - Each loop is proved against a recursive specification function:
    `RegisterAll` for the first and `MirrorAll` for the second. `Initialized`
    composes the two.
  - Lemmas about those functions state what `init` promises: which keys exist
    afterwards, that the last write wins, that nothing is removed, what each
    mirror holds, and that no `x_x_` key appears.

Key order is part of the model. When the table already holds both `k` and
`x_k`, the mirror loop overwrites `x_k` while visiting `k`. What it then
builds for `x_x_k` depends on which of the two it visited first.

Two details of the mirror step:

- The mirror's `level` is copied from the source template's `type`, not from
  its `level`. A template without `type`, such as `year`, therefore gets a
  mirror without a level.
- The mirror's name is `x_` followed by the table key it was made from, not
  by the template's own `name`.

## Model

| member | source | states |
|---|---|---|
| Registry.Store | src/calendar/SubDomainTemplate.js:30 | a property assignment sets that name's entry and leaves every other name's presence and entry alone; a new name goes to the end of the key order, an existing one keeps its place |
| Registry.SubDomainTemplate.constructor | src/calendar/SubDomainTemplate.js:4-7 | a new registry has an empty table, keeps the given date helper and defaults, and `has` is false for every name |
| Registry.SubDomainTemplate.At | src/calendar/SubDomainTemplate.js:9-11 | returns the stored template for exactly the names `has` accepts and nothing otherwise; where it returns a template, the property read as written yields that same own entry |
| Registry.SubDomainTemplate.Has | src/calendar/SubDomainTemplate.js:13-15 | true exactly when the name is one of the table's listed keys |
| Registry.SubDomainTemplate.Init | src/calendar/SubDomainTemplate.js:17-50 | the table after the two loops is the registration fold of the defaults followed by the user factories, then the mirror fold over the key list taken after registration; the table stays well formed |
| Registry.InitArgument | src/calendar/SubDomainTemplate.js:19-26 | a missing argument runs the defaults alone; a single factory runs like a one-element array after the defaults |
| Registry.UserList | src/calendar/SubDomainTemplate.js:19-26 | the user list is empty exactly when the argument is missing or an empty array; a lone factory becomes a one-element list and an array is used as it is |
| Registry.RegisterAll | src/calendar/SubDomainTemplate.js:28-31 | registration never removes a key, every produced name becomes a key, and the keys already present keep their order at the front |
| Registry.RegisterAllWellFormed | src/calendar/SubDomainTemplate.js:28-31 | storing templates one by one keeps the key list duplicate-free and in agreement with the table |
| Registry.RegisterAllHas | src/calendar/SubDomainTemplate.js:28-31 | after registration, a name is a key if and only if it was a key before or some produced template carries it |
| Registry.RegisterAllLastWins | src/calendar/SubDomainTemplate.js:28-31 | a name's entry is the template of the last factory that produced that name |
| Registry.RegisterAllKeepsOthers | src/calendar/SubDomainTemplate.js:28-31 | a name no factory produced keeps its previous entry, or stays absent |
| Registry.MirrorAll | src/calendar/SubDomainTemplate.js:33-49 | the mirror loop never removes a key and leaves every entry with a position |
| Registry.MirrorAllWellFormed | src/calendar/SubDomainTemplate.js:33-49 | the mirror loop keeps the key list duplicate-free and in agreement with the table |
| Registry.MirrorAllHas | src/calendar/SubDomainTemplate.js:33-36 | after the mirror loop, a name is a key if and only if it was one before or it is `x_` plus a key of the snapshot |
| Registry.MirrorAllUntouched | src/calendar/SubDomainTemplate.js:33-49 | a name that is not `x_` plus any snapshot key keeps its entry |
| Registry.MirrorAllEntry | src/calendar/SubDomainTemplate.js:33-49 | the entry `x_k` for a snapshot key `k` is the mirror of `k`'s template as registered, unless an earlier step overwrote `k` |
| Registry.MirrorAllAfterOverwrite | src/calendar/SubDomainTemplate.js:33-49 | in any duplicate-free snapshot where `k` comes before `x_k` (and no earlier key overwrote `k`), the `x_x_k` entry is `k`'s template mirrored twice |
| Registry.MirrorReadsCurrentEntry | src/calendar/SubDomainTemplate.js:33-36 | in any duplicate-free snapshot holding both `k` and `x_k` (and no earlier key overwrote `k`), `x_k` ends as the mirror of `k` in either order, while `x_x_k` mirrors the overwritten `x_k` when `k` comes first and the registered `x_k` when it comes second |
| Registry.Mirror | src/calendar/SubDomainTemplate.js:36-48 | every mirror has a position, a name with the `x_` prefix and no `type` |
| Registry.MirrorSwaps | src/calendar/SubDomainTemplate.js:36-48 | a mirror is named `x_` plus the key, swaps row with column and x with y, takes its level from `type`, has no `type`, and carries `maxItemNumber`, `format` and `extractUnit` over unchanged |
| Registry.MirrorTwice | src/calendar/SubDomainTemplate.js:36-48 | mirroring a mirror restores the original axes, but its name is `x_x_` plus the key and it has no level |
| Registry.XNameInjective | src/calendar/SubDomainTemplate.js:36-37 | distinct keys get distinct `x_` names |
| Registry.PlainNotMirrored | src/calendar/SubDomainTemplate.js:36-37 | a key without the `x_` prefix is never the mirror name of anything, and an `x_x_` name never equals the mirror name of a plain key |
| Registry.MirrorAllPlainAt | src/calendar/SubDomainTemplate.js:33-49 | a key without the `x_` prefix keeps its template through the mirror loop, and its `x_` entry is the mirror of that template |
| Registry.MirrorAllNoDoubleMirror | src/calendar/SubDomainTemplate.js:33-36 | mirroring all keys of a table that has no `x_` keys creates no `x_x_` key |
| Registry.Initialized | src/calendar/SubDomainTemplate.js:28-49 | after both loops, the table is well formed and every entry has a position |
| Registry.RegisteredMirrors | src/calendar/SubDomainTemplate.js:33-36 | the snapshot's `x_` names are exactly the `x_` names of the registered names |
| Registry.InitializedHas | src/calendar/SubDomainTemplate.js:28-36 | after `init`, the keys are exactly the registered names (the old keys and every produced name) together with their `x_` mirrors |
| Registry.InitPlain | src/calendar/SubDomainTemplate.js:28-49 | when neither the old keys nor the produced names start with `x_` (for example on an empty table), every registered entry survives, its `x_` entry mirrors it, and no `x_x_` key appears |
| Registry.InitRegistersYear | src/calendar/SubDomainTemplate.js:28-49 | when `year` is the last template named "year", the table ends with it under "year" and with its mirror under "x_year" |
| Registry.YearMirrorSameGrid | src/calendar/templates/year.js:4-17 | the `x_year` mirror has the same row, column and position as `year` at every timestamp, the same format and `extractUnit`, and no level |
| Registry.AtAsWritten | src/calendar/SubDomainTemplate.js:9-11 | the property read yields the own entry when there is one, otherwise the inherited member for a name `Object.prototype` carries, otherwise `undefined` |
| Registry.AtAsWrittenSeesPrototype | src/calendar/SubDomainTemplate.js:9-11 | as written, `at("toString")` on a table without such an entry yields the inherited `Object.prototype` method, not `undefined` |
| Year.YearTemplateShape | src/calendar/templates/year.js:1-22 | the year template is named "year", has level 60 and no `type`, returns 1 from row, column and both positions at every timestamp, and has format `Y`/`Y`/`in` |
| Year.YearExtractUnit | src/calendar/templates/year.js:23-25 | `extractUnit(d)` is the date helper's start-of-year of `d` |

## Left out

- The date helper is reduced to its start-of-year function, which is left uninterpreted. Its source is not part of this model, and the library it wraps is not either.
- The `options` object handed to every factory (src/calendar/SubDomainTemplate.js:18, 29) is not modelled. It is opaque to the registry, and `year` ignores it.
- The default templates other than `year` have no source here. The defaults are an arbitrary sequence of factories given to the constructor.
- Registry.SubDomainTemplate.Init: requires that every entry has a `position` after registration, which is a little stronger than the source needs. The source throws a `TypeError` only when the loop reaches an entry that still has no position: an `x_k` entry without one is harmless when `k` comes before it, because visiting `k` first overwrites `x_k` with a positioned mirror. The exception is not modelled. As a consequence, the test at test/calendar/SubDomainTemplate.test.js:32-36 is outside the model: it seeds an entry with only a `name` and then calls `init`, which the source as written would reject.
- The `add` method exercised at test/calendar/SubDomainTemplate.test.js:38-60 does not exist in src/calendar/SubDomainTemplate.js, so it is not modelled.
- Registry.SubDomainTemplate.Has: assumes no entry is named `hasOwnProperty`. The source calls `this.settings.hasOwnProperty`, and such an entry would shadow that method, so the call would throw.
- `Object.keys` lists integer-like keys ("1", "42") in numeric order before the other keys, and assigning to the key `__proto__` changes the prototype instead of adding an entry. The model keeps plain insertion order for every name and treats `__proto__` as an ordinary name.
- Template fields are narrowed to fixed types: `level`, `type` and `maxItemNumber` are optional integers, and row, column, position and `extractUnit` are total functions on integer timestamps. JavaScript allows any value there.
- The model treats templates as values. A mirror built by the source shares its `format` object and its function references with the original, so changing one in place changes the other. The mirror also always has own `level`, `maxItemNumber` and similar properties, even when their value is `undefined`. `None` does not distinguish that from an absent property. Neither affects a stated property.
- src/types.ts and src/index.d.ts are type declarations only, and they describe a different template shape from the JavaScript. The model follows the JavaScript.
- Rendering (test/frontend/subDomainSize.test.js), the browser end-to-end run (test/e2e/browser-firefox-latest-win.test.ts) and the build configuration (rollup.config.js) are not modelled.

## Findings

| source | as written | input that shows it | evidently intended | confidence | as-written member | corrected member |
|---|---|---|---|---|---|---|
| src/calendar/SubDomainTemplate.js:9-11 | `at` reads `this.settings[domain]`, which follows the prototype chain of a plain object | `at("toString")` on any table without a `toString` entry yields the inherited function, while `has("toString")` is false | `at` returns a template exactly when `has` is true, and `undefined` otherwise | medium, not executed | Registry.AtAsWritten | Registry.SubDomainTemplate.At |
