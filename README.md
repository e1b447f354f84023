# izicrud `make:crud` and the permission check, in Dafny

This project models the core of the izicrud Laravel starter kit.

- **The `make:crud` Artisan command** (`app/Console/Commands/MakeCrud.php`). It reads a model name such as `Post` or `Post:"Postagem"` and field arguments of the form `name:label:type`. From them it derives the names used in the templates and parses the fields. Then it writes the model, the controller and the two Vue pages, splices a controller import and a route group into `routes/web.php` and a menu item into `AppSidebar.vue`, and creates the migration.
- **The permission-level check**: `User::hasPermission`, `User::getNivel` and the `permissao` route middleware (`ChechPermissao`).

Modules, one per concern:

| file | module | what it holds |
|---|---|---|
| `wrappers.dfy` | `Wrappers` | `Option`, `Result` |
| `diagnostics.dfy` | `Diagnostics` | the warnings printed and the exception that aborts a run |
| `strings.dfy` | `Strings` | ASCII `strtolower`, `ucfirst`, `trim($s, "'\"")`, `explode`, `str_replace`, `strpos`, `str_starts_with`, `Str::contains`; the inflector parameter |
| `field_spec.dfy` | `FieldSpec` | the 16 type keywords, the field record, `parseFields` as a specification function `Parse` and as the loop `ParseFields` |
| `type_tables.dfy` | `TypeTables` | the per-type `match` tables: cast, validation rule, prop type, form default, form widget, migration column |
| `emitters.dfy` | `Emitters` | the per-field fragment lists of `createModel`, `createController`, `generateDropdownProps` and `createViews`, as template slots |
| `migration.dfy` | `Migration` | `createMigration`'s column list, table and file names |
| `splice.dfy` | `Splice` | the three anchor splices as functions on file text |
| `naming.dfy` | `Naming` | the names `handle` derives |
| `generator.dfy` | `Generator` | `handle` end to end: the function `Generate` on the files, and the class `Workspace` whose methods update the files in place |
| `single_field.dfy` | `SingleField` | one argument followed from its text to every artifact |
| `permissions.dfy` | `Permissions` | `hasPermission`, `getNivel`, the middleware decision |

`Str::plural` and `Str::camel` come from Laravel's inflector. The model takes them as the two functions of an `Inflector` value, so every property holds for any inflector. The clock reading in the migration file name is a parameter. The files the command reads and writes are the fields of a `Workspace`: `routes/web.php` and `AppSidebar.vue` as text, the generated files as a map from path to the template slots they fill, and the migrations directory as a map from file name. The three stubs that feed the splices (the controller import, the route group and the menu item) are input strings. The model, controller, view and migration stubs are not modelled. Their artifacts record what their slots are filled with: the names `handle` derived, and the per-field lists the slot texts are built from.

Behaviour worth knowing:
- A `moeda` field is normalised to `float` while it is parsed (`MakeCrud.php:70-74`). Every later table therefore sees `float`. Such a field gets the 0.01-step number input, not the currency input of the `moeda` arm, which no parsed field reaches (`SingleField.CurrencyFieldIsPlainFloat`, `TypeTables.MoedaArmsDisagree`).
- The related model of the field named just `id_` is `ucfirst(camel(""))`. It is not guaranteed to be non-empty.
- `str_replace('id_', '', $name)` removes every `id_` in the name, not only the prefix. The model does the same (`FieldSpec.RelatedModelName`).
- The migration stamp has second granularity (`date('Y_m_d_His')`).
- `parseFields` prints each unknown-type warning as it meets it (`MakeCrud.php:64-66`). A run that then throws on a later malformed argument has already printed the warnings of the arguments in front of it, and the model returns them with the error (`Generator.AbortKeepsEarlierWarnings`).
- `Str::contains` never finds the empty string. A splice of an empty fragment is therefore not idempotent (`Splice.EmptyFragmentIsNotIdempotent`).

## Model

| member | source | states |
|---|---|---|
| Strings.ToLower | app/Console/Commands/MakeCrud.php:26-27 | `strtolower`: same length, no capital left, other characters kept, each ASCII capital moved by 32 |
| Strings.LowerChar | app/Console/Commands/MakeCrud.php:26 | an ASCII capital becomes the lower-case letter 32 code points up; every other character is kept |
| Strings.ToLowerIdempotent | app/Console/Commands/MakeCrud.php:64 | lower-casing twice is lower-casing once |
| Strings.UpperChar | app/Console/Commands/MakeCrud.php:25 | a lower-case ASCII letter becomes the capital 32 code points down; every other character is kept |
| Strings.UcFirst | app/Console/Commands/MakeCrud.php:25 | `ucfirst`: same length and the rest kept; a lower-case first letter becomes its capital; text that starts otherwise is unchanged |
| Strings.TrimQuotes | app/Console/Commands/MakeCrud.php:56 | `trim($s, "'\"")`: a slice of the input; everything cut off is a quote; the result neither starts nor ends with a quote |
| Strings.TrimQuotesIdempotent | app/Console/Commands/MakeCrud.php:78 | trimming twice is trimming once |
| Strings.SplitParts | app/Console/Commands/MakeCrud.php:50-51 | `explode(':')` gives one more part than there are separators, and no part holds a separator |
| Strings.SplitJoin | app/Console/Commands/MakeCrud.php:50 | joining the parts with the separator gives back the input |
| Strings.JoinSplit | app/Console/Commands/MakeCrud.php:50 | splitting the join of separator-free parts gives back those parts |
| Strings.SplitNoSeparator | app/Console/Commands/MakeCrud.php:21-22 | text without the separator splits into itself alone |
| Strings.SplitAppendPart | app/Console/Commands/MakeCrud.php:21-23 | a separator and a separator-free tail add exactly one part |
| Strings.Strpos | app/Console/Commands/MakeCrud.php:398 | `strpos` finds a match exactly when the pattern occurs, and it is the first occurrence |
| Strings.ReplaceAllAbsent | app/Console/Commands/MakeCrud.php:90 | `str_replace` leaves text without the pattern unchanged |
| Strings.ReplaceAll | app/Console/Commands/MakeCrud.php:90 | `str_replace` with the pattern as its own replacement changes nothing |
| Strings.ReplaceAllPrefix | app/Console/Commands/MakeCrud.php:90 | a leading occurrence is replaced and the scan goes on right after it |
| Strings.ReplaceAllFirstOccurrence | app/Console/Commands/MakeCrud.php:394 | the first occurrence is replaced, the text before it kept, and the scan goes on after it, so occurrences never overlap |
| FieldSpec.KeywordType | app/Console/Commands/MakeCrud.php:59-64 | a keyword accepted by the type list maps to the type whose keyword it is |
| FieldSpec.KeywordRoundTrip | app/Console/Commands/MakeCrud.php:59-62 | each of the 16 types is recognised from its own keyword |
| FieldSpec.KeywordListsAgree | app/Console/Commands/MakeCrud.php:59-64 | the list of valid types, the recognised keywords and the keywords of the 16 types are the same 16 texts |
| FieldSpec.Normalise | app/Console/Commands/MakeCrud.php:70-74 | normalisation never yields `moeda` and changes no other type |
| FieldSpec.TypeNormalisation | app/Console/Commands/MakeCrud.php:70-74 | the stored type name is the keyword, except `biginteger`→`bigInteger` and `moeda`→`float` |
| FieldSpec.RelatedModelName | app/Console/Commands/MakeCrud.php:87-91 | the related model has the length of the camel-cased name with every `id_` removed |
| FieldSpec.RelatedModelOfPrefixedName | app/Console/Commands/MakeCrud.php:87-91 | for `id_` + a rest free of `id_`, the related model is `ucfirst(camel(rest))` |
| FieldSpec.WellFormedIsTwoColons | app/Console/Commands/MakeCrud.php:50-51 | an argument has the accepted shape exactly when it holds two colons |
| FieldSpec.ParseOne | app/Console/Commands/MakeCrud.php:50-82 | a bad shape is a format error, and only a bad shape is; a skipped type is not in the list; an accepted field is never `moeda`, is foreign iff its name starts with `id_`, carries the computed related model and an unquoted label |
| FieldSpec.Outcomes | app/Console/Commands/MakeCrud.php:48 | one outcome per argument |
| FieldSpec.OutcomesInOrder | app/Console/Commands/MakeCrud.php:48-50 | the outcome at each position is that of the argument at that position |
| FieldSpec.Collect | app/Console/Commands/MakeCrud.php:48-84 | a loop that completes saw no malformed argument, and holds no more fields and no more warnings than arguments |
| FieldSpec.Parse | app/Console/Commands/MakeCrud.php:45-85 | when parsing does not throw, every argument had exactly three segments and each gave one field or one warning |
| FieldSpec.ParseFields | app/Console/Commands/MakeCrud.php:45-85 | the `foreach` loop with `continue` and `throw` returns exactly the specification `Parse` |
| FieldSpec.ParseStep | app/Console/Commands/MakeCrud.php:50-82 | one turn of the loop: a malformed argument ends the run with its error; otherwise a warning or a field is appended to what the earlier arguments gave |
| FieldSpec.FailureIsSticky | app/Console/Commands/MakeCrud.php:51-53 | once an argument has thrown, the later arguments change nothing |
| FieldSpec.CollectFailsOnFirstMalformed | app/Console/Commands/MakeCrud.php:50-53 | parsing fails iff some outcome is a bad shape, and the error names the first such argument |
| FieldSpec.CollectAbortKeepsWarnings | app/Console/Commands/MakeCrud.php:50-67 | with the first malformed outcome at position i, the abort carries that argument's error after the warnings of the outcomes in front of it |
| FieldSpec.ParseFailsOnFirstMalformed | app/Console/Commands/MakeCrud.php:50-53 | the run aborts iff some argument has the wrong segment count, reporting the first one |
| FieldSpec.ParseAbortKeepsWarnings | app/Console/Commands/MakeCrud.php:50-67 | with the first malformed argument at position i, the arguments in front of it parse on their own, and the abort carries their warnings, then the error naming argument i |
| FieldSpec.CollectAccountsForEveryArgument | app/Console/Commands/MakeCrud.php:64-82 | each argument gives exactly one field or one warning |
| FieldSpec.ParseAccountsForEveryArgument | app/Console/Commands/MakeCrud.php:64-82 | fields plus warnings equal the arguments, so there are at most as many fields as arguments |
| FieldSpec.AcceptedPositions | app/Console/Commands/MakeCrud.php:76-82 | the positions of accepted arguments, increasing and complete |
| FieldSpec.CollectKeepsAcceptedInOrder | app/Console/Commands/MakeCrud.php:76-84 | the fields are the accepted outcomes, in argument order |
| FieldSpec.ParseKeepsAcceptedInOrder | app/Console/Commands/MakeCrud.php:64-84 | the fields are an order-preserving subsequence of the accepted arguments; none is `moeda`; each is foreign iff `id_`-prefixed and carries its related model |
| FieldSpec.SkippedPositions | app/Console/Commands/MakeCrud.php:64-67 | the positions of the arguments whose type was skipped, increasing and complete |
| FieldSpec.CollectWarnsInOrder | app/Console/Commands/MakeCrud.php:64-67 | the warnings are one unknown-type warning per skipped outcome, naming its type, in argument order |
| FieldSpec.CollectWarnsOnlyForSkippedTypes | app/Console/Commands/MakeCrud.php:64-67 | every warning is an unknown-type warning for a skipped outcome |
| FieldSpec.ParseWarnsInOrder | app/Console/Commands/MakeCrud.php:64-67 | the warnings are one per argument whose type is not in the list, naming that type, in argument order |
| FieldSpec.ParseWarnsOnlyForUnknownTypes | app/Console/Commands/MakeCrud.php:64-67 | every warning names a type, taken from some argument, that is not in the list |
| TypeTables.CastFor | app/Console/Commands/MakeCrud.php:96-101 | the float, date and array casts go exactly to the types whose validation rule is numeric, date and array |
| TypeTables.RuleFor | app/Console/Commands/MakeCrud.php:118-128 | the default `string` rule is taken exactly by `string` and `text` |
| TypeTables.RuleText | app/Console/Commands/MakeCrud.php:118-128 | every rule is `required`, then the table's type part, then `max:255`, joined by bars |
| TypeTables.PropTypeFor | app/Console/Commands/MakeCrud.php:243-247 | outside `moeda`, a number prop exactly for the integer and numeric rules; a boolean prop exactly for the boolean rule |
| TypeTables.FormDefaultFor | app/Console/Commands/MakeCrud.php:249-253 | the form default is `false`, `0` or `''` exactly as the prop type is boolean, number or string |
| TypeTables.WidgetFor | app/Console/Commands/MakeCrud.php:260-278 | the select exactly for foreign fields, whatever their type, reading `<name>Options`; among the others the currency input exactly for `moeda` |
| TypeTables.ColumnMethod | app/Console/Commands/MakeCrud.php:479-485 | always a schema-builder method; the stored type name itself except for `email`, `moeda`, `file` and `files` |
| TypeTables.RelatedTable | app/Console/Commands/MakeCrud.php:468 | the lower-cased plural of the related model: the plural's length, no capital left |
| TypeTables.ColumnFor | app/Console/Commands/MakeCrud.php:465-487 | a foreign field gets `foreignId` constrained to its related table; any other field a column with its own name and a schema-builder method |
| TypeTables.TablesAgree | app/Console/Commands/MakeCrud.php:260-278 | on every type but `moeda` the widget table picks the 0.01-step, 1-step, date and multi-file inputs exactly for the numeric, integer, date and array rules |
| TypeTables.MoedaArmsDisagree | app/Console/Commands/MakeCrud.php:272 | the unreachable `moeda` arms: numeric rule and float cast and column, but a string prop with an empty default |
| Emitters.MapFields | app/Console/Commands/MakeCrud.php:95 | `array_map` keeps length and applies the function position by position |
| Emitters.CastPositions | app/Console/Commands/MakeCrud.php:96-101 | the positions of the fields that get a cast, increasing and complete |
| Emitters.Casts | app/Console/Commands/MakeCrud.php:96-101 | `array_filter` keeps, in field order, exactly the cast entries of the fields that have one |
| Emitters.CastsExactlyForCastTypes | app/Console/Commands/MakeCrud.php:96-101 | casts are emitted exactly for files, float-family and date-family fields |
| Emitters.ModelFileFor | app/Console/Commands/MakeCrud.php:93-113 | the model name and the casts; one quoted fillable name per field in order; a relation named after the related model exactly for the foreign fields |
| Emitters.ControllerFileFor | app/Console/Commands/MakeCrud.php:116-227 | the model, controller, view folder, route prefix, lower-cased model, title and plural title `handle` derived; one rule entry per field in field order; a dropdown query and a dropdown prop exactly for the foreign fields |
| Emitters.RuleEntryShape | app/Console/Commands/MakeCrud.php:118-128 | a rule entry is the quoted name, `=>`, then, quoted, `required`, the type's rule and `max:255` joined by bars, then a comma |
| Emitters.RulesCoverEveryField | app/Console/Commands/MakeCrud.php:118-128 | one rule per field, in field order, each the quoted name mapped to `required`, the field type's rule and `max:255` |
| Emitters.DropdownWiring | app/Console/Commands/MakeCrud.php:130-138 | a foreign field is queried, passed, declared and selected under the one name `<name>Options`; a non-foreign field gets none of these |
| Emitters.PageNamesOf | app/Console/Commands/MakeCrud.php:303-304 | the five names both pages get: the plural title, the route prefix, the lower-cased plural, the title and the lower-cased model |
| Emitters.CreateViewFor | app/Console/Commands/MakeCrud.php:243-309 | the five page names of the run; one prop, form field and input per field in field order, the input chosen by the widget table; a dropdown prop exactly for the foreign fields |
| Emitters.IndexViewFor | app/Console/Commands/MakeCrud.php:334-356 | the five page names of the run; one prop, header, cell and search condition per field, in field order |
| Emitters.GeneratedFilesDetermineNames | app/Console/Commands/MakeCrud.php:21-36 | every derived name reaches a generated file: equal model, controller and pages for the same fields mean equal names, so runs that differ only in the title write different files |
| Emitters.IndexCoversEveryField | app/Console/Commands/MakeCrud.php:334-347 | every field has a header with its label, a cell and a search condition, in field order |
| Migration.TableName | app/Console/Commands/MakeCrud.php:455 | `strtolower(Str::plural($model))`: the plural's length, capitals lowered and every other character kept |
| Migration.MigrationFileName | app/Console/Commands/MakeCrud.php:456-458 | the stamp, `_create_`, the table name and `_table.php`, in that order and nothing else |
| Migration.Columns | app/Console/Commands/MakeCrud.php:465-492 | two more statements than fields: one per field in order, then `deleted`, then `timestamps()` |
| Migration.CreateMigration | app/Console/Commands/MakeCrud.php:453-498 | the file is `<stamp>_create_<table>_table.php`; it is skipped iff it exists; otherwise it holds the model, the table and the column list |
| Migration.ColumnsAreBuilderCalls | app/Console/Commands/MakeCrud.php:465-489 | foreign fields become constrained references to the lower-cased plural of their model; every other field uses a real schema-builder method |
| Migration.DistinctStampsDistinctFiles | app/Console/Commands/MakeCrud.php:458 | two different clock readings of the same length name two different files |
| Splice.InsertAfterAnchor | app/Console/Commands/MakeCrud.php:396-405 | present fragment: unchanged; missing marker: unchanged with a warning; otherwise one fragment and a newline longer |
| Splice.InsertBeforeAnchor | app/Console/Commands/MakeCrud.php:440-449 | the same three cases for the menu item |
| Splice.InsertAfterAnchorPlacement | app/Console/Commands/MakeCrud.php:398-401 | the fragment and a newline sit right after the first marker; prefix and suffix are kept byte for byte |
| Splice.InsertBeforeAnchorPlacement | app/Console/Commands/MakeCrud.php:442-445 | the item and a newline sit right before the first marker; prefix and suffix are kept, and the marker follows |
| Splice.InsertAfterAnchorIdempotent | app/Console/Commands/MakeCrud.php:396 | splicing a non-empty import or route block twice equals splicing it once |
| Splice.InsertAfterAnchorLeavesFragment | app/Console/Commands/MakeCrud.php:396-401 | with the marker present, a non-empty fragment is in the file afterwards |
| Splice.InsertBeforeAnchorLeavesItem | app/Console/Commands/MakeCrud.php:440-446 | with the marker present, a non-empty menu item is in the sidebar afterwards |
| Splice.InsertBeforeAnchorIdempotent | app/Console/Commands/MakeCrud.php:440 | splicing a non-empty menu item twice equals splicing it once |
| Splice.EmptyFragmentIsNotIdempotent | app/Console/Commands/MakeCrud.php:396-401 | an empty fragment adds one newline on every splice |
| Splice.FirstAnchorStaysBeforeFragment | app/Console/Commands/MakeCrud.php:398-401 | after an insertion after the marker, the marker's first occurrence is where it was |
| Splice.InsertAfterAnchorNewestFirst | app/Console/Commands/MakeCrud.php:416-421 | two successive imports or route blocks: the newer, then the older, each with its newline, right under the marker |
| Splice.FirstAnchorFollowsItem | app/Console/Commands/MakeCrud.php:442-445 | a menu insertion places the item and a newline at the first marker, and that marker's first occurrence now sits right behind the item |
| Splice.FirstOccurrenceBehindInsert | app/Console/Commands/MakeCrud.php:442-445 | text inserted just before the first occurrence of a pattern moves that occurrence behind it, unless the insertion completes an earlier one |
| Splice.InsertBeforeAnchorGenerationOrder | app/Console/Commands/MakeCrud.php:440-446 | two successive menu items: the older, then the newer, each with its newline, right above the marker |
| Splice.AnchorsAreSingleLines | routes/web.php:8 | the three markers are one line each, the two `web.php` markers ending in their newline |
| Splice.InsertAfterAnchorKeepsLine | app/Console/Commands/MakeCrud.php:416-421 | a splice after a marker that ends a line keeps every one-line text the file held |
| Naming.DeriveNames | app/Console/Commands/MakeCrud.php:21-29 | model is the first segment; controller is model + `Controller`; view folder is `ucfirst(model)`; route prefix and lower name are `strtolower(model)`; plurals come from the title |
| Naming.PlainModelName | app/Console/Commands/MakeCrud.php:21-23 | without a colon the argument is both model and title |
| Naming.TitledModelName | app/Console/Commands/MakeCrud.php:21-23 | `Model:Title` gives that model and the title without quotes |
| Naming.ExtraSegmentsIgnored | app/Console/Commands/MakeCrud.php:21-23 | a third segment changes none of the names |
| Naming.FolderAndPrefixAgree | app/Console/Commands/MakeCrud.php:25-26 | the view folder and the route prefix differ only in letter case |
| SingleField.SplitThree | app/Console/Commands/MakeCrud.php:50-55 | three colon-free segments joined by colons split back into them |
| SingleField.AcceptedField | app/Console/Commands/MakeCrud.php:55-82 | a supported type is accepted with the name as given, the label unquoted and the type normalised |
| SingleField.UnknownTypeSkipped | app/Console/Commands/MakeCrud.php:64-67 | an unsupported type is skipped with its quote-trimmed text |
| SingleField.FloatArms | app/Console/Commands/MakeCrud.php:98 | a non-foreign float gets the float cast, the numeric rule, a number prop, the 0.01-step input and a float column |
| SingleField.CurrencyFieldIsPlainFloat | app/Console/Commands/MakeCrud.php:70-74 | a `moeda` argument, in any letter case, becomes that plain float and never the currency input |
| SingleField.ForeignFieldArtifacts | app/Console/Commands/MakeCrud.php:80-81 | an `id_` argument is foreign whatever its type, with the select over `<name>Options` and a constrained column on its model's table |
| Generator.ImportFragment | app/Console/Commands/MakeCrud.php:393-394 | a stub without the `{{controller}}` slot is used as it is |
| Generator.ImportFragmentFillsSlot | app/Console/Commands/MakeCrud.php:394 | a stub with one `{{controller}}` slot gets the controller name there, the text around it kept |
| Generator.RoutesFragment | app/Console/Commands/MakeCrud.php:413-414 | a stub without the `{{controller}}` and `{{routePrefix}}` slots is used as it is |
| Generator.MenuFragment | app/Console/Commands/MakeCrud.php:433-438 | a stub without the `{{modelPluralTitle}}` and `{{routePrefix}}` slots is used as it is |
| Generator.GeneratedPathsDistinct | app/Console/Commands/MakeCrud.php:33-35 | the model, controller, create-page and index-page paths are four different files |
| Generator.RaisedPositions | app/Console/Commands/MakeCrud.php:404 | the positions of the steps that raised a warning, increasing and complete |
| Generator.Raised | app/Console/Commands/MakeCrud.php:404 | the reported warnings are exactly those the steps raised, in step order |
| Generator.RaisedReportsEvery | app/Console/Commands/MakeCrud.php:404 | every warning a step raised is reported |
| Generator.WriteGenerated | app/Console/Commands/MakeCrud.php:113 | the files gain exactly the four generated paths, each holding its artifact; every other file is kept |
| Generator.WithGeneratedFiles | app/Console/Commands/MakeCrud.php:33-35 | the model, controller and both pages are written at their paths; every other file is kept |
| Generator.ImportStep | app/Console/Commands/MakeCrud.php:389-407 | a warning only for a missing `// Controllers` marker, and then `web.php` is unchanged; with the marker, a non-empty import is in the file afterwards |
| Generator.RoutesStep | app/Console/Commands/MakeCrud.php:409-427 | a warning only for a missing `// Rotas` marker, and then `web.php` is unchanged; with the marker, a non-empty route block is in the file afterwards |
| Generator.MenuStep | app/Console/Commands/MakeCrud.php:429-451 | a warning only for a missing menu marker, and then the sidebar is unchanged; with the marker, a non-empty item is in the sidebar afterwards |
| Generator.MigrationsAfter | app/Console/Commands/MakeCrud.php:453-498 | the migrations gain exactly the new file name; existing files are kept; a new name holds the model, its table and its columns |
| Generator.Apply | app/Console/Commands/MakeCrud.php:33-39 | the run succeeds and reports the parse warnings, then those of the four steps in step order; the generated files are written and others kept; `web.php` gets the import then the routes splice; the sidebar the menu splice; the migrations as `MigrationsAfter` |
| Generator.Generate | app/Console/Commands/MakeCrud.php:19-43 | a format error leaves every file as it was and reports the warnings already printed and the error; otherwise the run is `Apply` of the derived names and the parsed fields |
| Generator.MalformedFieldTouchesNothing | app/Console/Commands/MakeCrud.php:31-39 | a malformed argument anywhere aborts the run before any file is touched |
| Generator.AbortKeepsEarlierWarnings | app/Console/Commands/MakeCrud.php:31-67 | with the first malformed argument at position i, the run writes nothing and reports the warnings of the arguments in front of it, then the error naming argument i |
| Generator.WebSpliceIdempotent | app/Console/Commands/MakeCrud.php:36-37 | splicing the import and then the routes again leaves `web.php` as the first time left it |
| Generator.GeneratedFilesTwice | app/Console/Commands/MakeCrud.php:33-35 | writing the same generated files again changes nothing |
| Generator.WriteGeneratedTwice | app/Console/Commands/MakeCrud.php:33-35 | writing the same four artifacts twice equals writing them once |
| Generator.MigrationTwice | app/Console/Commands/MakeCrud.php:461-497 | with the same stamp, the second migration finds the first and keeps it |
| Generator.ApplyTwice | app/Console/Commands/MakeCrud.php:33-39 | applying the same names and fields twice equals applying them once |
| Generator.RerunChangesNothing | app/Console/Commands/MakeCrud.php:19-43 | running `make:crud` again with the same arguments and stamp changes no file |
| Generator.RerunReportsExistingMigration | app/Console/Commands/MakeCrud.php:497 | the second run warns that the migration already exists |
| Generator.Workspace.constructor | app/Console/Commands/MakeCrud.php:391-392 | a workspace holds the given files |
| Generator.Workspace.CreateModel | app/Console/Commands/MakeCrud.php:111-113 | writes the model file at `app/Models/<model>.php` and nothing else |
| Generator.Workspace.CreateController | app/Console/Commands/MakeCrud.php:221-227 | writes the controller file, filled with the run's names and fields, and nothing else |
| Generator.Workspace.CreateViews | app/Console/Commands/MakeCrud.php:303-356 | writes `create.vue` and then `index.vue` in the view folder and nothing else |
| Generator.Workspace.SpliceIntoWeb | app/Console/Commands/MakeCrud.php:396-405 | the `substr` rebuild of `web.php` equals the splice function, and returns its warning |
| Generator.Workspace.AppendControllerImport | app/Console/Commands/MakeCrud.php:389-407 | `web.php` becomes the import splice of its old text; nothing else changes |
| Generator.Workspace.AppendRoutes | app/Console/Commands/MakeCrud.php:409-427 | `web.php` becomes the route splice of its old text; nothing else changes |
| Generator.Workspace.AppendMenuItem | app/Console/Commands/MakeCrud.php:429-451 | the sidebar becomes the menu splice of its old text; nothing else changes |
| Generator.Workspace.CreateMigrationFile | app/Console/Commands/MakeCrud.php:453-498 | adds the migration unless its name exists, else warns; nothing else changes |
| Generator.Workspace.Handle | app/Console/Commands/MakeCrud.php:19-43 | the new files and the result are exactly `Generate` of the old files |
| Permissions.PermissionOf | app/Models/User.php:52-55 | the user's record is the row keyed by `permissao_id`, if there is one |
| Permissions.HasPermission | app/Models/User.php:57-66 | a grant needs an existing record |
| Permissions.GetNivel | app/Models/User.php:68-77 | the record's level, or 0 without a record |
| Permissions.HasPermissionIff | app/Models/User.php:57-66 | granted iff a record exists and its level is at most the required one |
| Permissions.NoRecordNoPermission | app/Models/User.php:65 | without a record no level is granted |
| Permissions.HasPermissionMonotone | app/Models/User.php:62 | a grant at one level is a grant at every higher level |
| Permissions.LowerLevelMorePrivilege | app/Models/User.php:62 | a user with a lower level is granted whatever a higher-level user is granted |
| Permissions.HasPermissionIsLevelComparison | app/Models/User.php:59-76 | with a record, `hasPermission(n)` is `getNivel() <= n` |
| Permissions.MissingRecordLevelZeroWithoutAccess | app/Models/User.php:65-76 | without a record `getNivel()` is 0 yet no level from 0 up is granted |
| Permissions.OnlyNivelIsRead | app/Models/User.php:59-62 | records that agree on `nivel` give the same answers, whatever `ativo` and `deleted` say |
| Permissions.CheckPermission | app/Http/Middleware/ChechPermissao.php:19-27 | passes on iff there is a user with the permission, then exactly `next(request)`; otherwise the redirect to `/sempermissao` with the error flash |
| Permissions.PassesIff | app/Http/Middleware/ChechPermissao.php:23-27 | a request passes iff the user exists, has a record, and its level is at most the required one |
| Permissions.RedirectIgnoresNext | app/Http/Middleware/ChechPermissao.php:23-24 | a refused request does not depend on the downstream handler |
| Permissions.AdminRoutesNeedLevelZero | routes/web.php:27 | behind `permissao:0` only users with a record of level at most 0 get through |

## Left out

- File access (`File::get`, `put`, `exists`, `ensureDirectoryExists`) is the state of a `Workspace`, not real I/O. The directory paths are plain strings.
- The model, controller, view and migration stub templates and the heredoc PHP and Vue texts are left out. The model records which fragment kind or table arm each field gets, not the bytes of the template text.
- The second write of `create.vue` (`MakeCrud.php:311-331`) is left out. It adds a script header with a hardcoded `usuarios` prop, and the model keeps only the slots of the first write.
- `informativo` and the wording of the console messages are left out. Warnings are returned as a list of values.
- `Str::plural` and `Str::camel` are parameters; no property of the inflector is assumed. The clock (`date('Y_m_d_His')`) is a string parameter.
- `generateSelectComponent` is represented by the `Select` widget and its options prop only, not its Vue text.
- The `store`/`update` bodies in the controller template, with their hardcoded `arquivo`/`arquivos` upload handling, are template text and are left out.
- `app/Http/Controllers/PermissoesController.php`, the migrations, `app/Models/Permissoes.php` and `routes/web.php` are not part of this model. They are cited only for the markers and the `permissao:0` level.
- Authentication (`$request->user()`) is the optional user passed in. Password hashing is not part of this model.
- Permissions.CheckPermission: the required level arrives from the route as a string, and PHP compares it numerically. The model takes it as an integer.
- Generator.RerunChangesNothing: proved only when `web.php` holds the `// Controllers` marker, the expanded import is one line and the three expanded fragments are non-empty. Without the marker, a route block could itself bring a marker in, so the second run could differ.
- Generator.WebSpliceIdempotent: proved under the same assumptions as `RerunChangesNothing`.
- Splice.InsertAfterAnchorIdempotent: stated for non-empty fragments only, because `Str::contains` never finds the empty string (see `Splice.EmptyFragmentIsNotIdempotent`).
- Splice.InsertBeforeAnchorIdempotent: stated for non-empty fragments only, for the same reason.
- Splice.InsertBeforeAnchorGenerationOrder: needs the first item not to form an earlier copy of the marker with the text before it (`CreatesNoEarlierAnchor`).
- Permissions.HasPermission: its own contract gives one direction only; `HasPermissionIff` states both.
- FieldSpec.RelatedModelName: its own contract gives only the length; the value is stated by `RelatedModelOfPrefixedName` for names with a single leading `id_`.
- FieldSpec.Parse: its own contract covers the successful run only; `ParseFailsOnFirstMalformed` states when and with which argument it fails, and `ParseAbortKeepsWarnings` which warnings come before the error.
