/**
 * `make:crud` end to end: the names are derived, the field arguments parsed,
 * the model, controller and views written, the controller import, the routes
 * and the menu item spliced in, and the migration created. The files the
 * command reads and writes are the state of a `Workspace`.
 */
module Generator {
  import opened Wrappers
  import opened Strings
  import opened Diagnostics
  import opened FieldSpec
  import opened Emitters
  import opened Migration
  import opened Splice
  import opened Naming

  /** The templates whose expansion is spliced into existing files. */
  datatype Stubs = Stubs(controllerImport: string, routes: string, menuItem: string)

  const ControllerSlot := "{{controller}}"
  const RoutePrefixSlot := "{{routePrefix}}"
  const PluralTitleSlot := "{{modelPluralTitle}}"

  /** `str_replace('{{controller}}', ...)` over the import stub; a stub without the slot is used as it is. */
  function ImportFragment(stub: string, controller: string): (r: string)
    ensures !Contains(stub, ControllerSlot) ==> r == stub
  {
    if !Contains(stub, ControllerSlot) then
      ReplaceAllAbsent(stub, ControllerSlot, controller);
      ReplaceAll(stub, ControllerSlot, controller)
    else
      ReplaceAll(stub, ControllerSlot, controller)
  }

  /** An import stub with one `{{controller}}` slot expands to the stub with the controller name in that slot. */
  lemma ImportFragmentFillsSlot(pre: string, post: string, controller: string)
    requires !Contains(pre + ControllerSlot[..|ControllerSlot| - 1], ControllerSlot)
    requires !Contains(post, ControllerSlot)
    ensures ImportFragment(pre + ControllerSlot + post, controller) == pre + controller + post
  {
    ReplaceAllFirstOccurrence(pre, ControllerSlot, post, controller);
    ReplaceAllAbsent(post, ControllerSlot, controller);
  }

  /**
   * The route stub with `{{controller}}` replaced first, then `{{routePrefix}}`;
   * a stub with neither slot is used as it is.
   */
  function RoutesFragment(stub: string, controller: string, routePrefix: string): (r: string)
    ensures !Contains(stub, ControllerSlot) && !Contains(stub, RoutePrefixSlot) ==> r == stub
  {
    if !Contains(stub, ControllerSlot) && !Contains(stub, RoutePrefixSlot) then
      ReplaceAllAbsent(stub, ControllerSlot, controller);
      ReplaceAllAbsent(stub, RoutePrefixSlot, routePrefix);
      ReplaceAll(ReplaceAll(stub, ControllerSlot, controller), RoutePrefixSlot, routePrefix)
    else
      ReplaceAll(ReplaceAll(stub, ControllerSlot, controller), RoutePrefixSlot, routePrefix)
  }

  /**
   * The menu stub with `{{modelPluralTitle}}` replaced first, then
   * `{{routePrefix}}`; a stub with neither slot is used as it is.
   */
  function MenuFragment(stub: string, pluralTitle: string, routePrefix: string): (r: string)
    ensures !Contains(stub, PluralTitleSlot) && !Contains(stub, RoutePrefixSlot) ==> r == stub
  {
    if !Contains(stub, PluralTitleSlot) && !Contains(stub, RoutePrefixSlot) then
      ReplaceAllAbsent(stub, PluralTitleSlot, pluralTitle);
      ReplaceAllAbsent(stub, RoutePrefixSlot, routePrefix);
      ReplaceAll(ReplaceAll(stub, PluralTitleSlot, pluralTitle), RoutePrefixSlot, routePrefix)
    else
      ReplaceAll(ReplaceAll(stub, PluralTitleSlot, pluralTitle), RoutePrefixSlot, routePrefix)
  }

  /** A written file, by the template slots it fills. */
  datatype Artifact =
    | ModelArtifact(model: ModelFile)
    | ControllerArtifact(controller: ControllerFile)
    | CreateViewArtifact(create: CreateView)
    | IndexViewArtifact(index: IndexView)

  function ModelPath(model: string): string { "app/Models/" + model + ".php" }

  function ControllerPath(controller: string): string { "app/Http/Controllers/" + controller + ".php" }

  function CreateViewPath(folder: string): string { "resources/js/pages/" + folder + "/create.vue" }

  function IndexViewPath(folder: string): string { "resources/js/pages/" + folder + "/index.vue" }

  /** The four paths `make:crud` writes. */
  function GeneratedPaths(n: Names): set<string>
  {
    {ModelPath(n.model), ControllerPath(n.controller), CreateViewPath(n.viewFolder), IndexViewPath(n.viewFolder)}
  }

  /** The four paths are different files, whatever the names. */
  lemma GeneratedPathsDistinct(n: Names)
    ensures ModelPath(n.model) != ControllerPath(n.controller)
    ensures ModelPath(n.model) != CreateViewPath(n.viewFolder) && ModelPath(n.model) != IndexViewPath(n.viewFolder)
    ensures ControllerPath(n.controller) != CreateViewPath(n.viewFolder) && ControllerPath(n.controller) != IndexViewPath(n.viewFolder)
    ensures CreateViewPath(n.viewFolder) != IndexViewPath(n.viewFolder)
  {
    assert ModelPath(n.model)[0] == 'a' && ModelPath(n.model)[4] == 'M';
    assert ControllerPath(n.controller)[0] == 'a' && ControllerPath(n.controller)[4] == 'H';
    assert CreateViewPath(n.viewFolder)[0] == 'r' && IndexViewPath(n.viewFolder)[0] == 'r';
    assert |CreateViewPath(n.viewFolder)| != |IndexViewPath(n.viewFolder)|;
  }

  /**
   * The files `make:crud` touches: `routes/web.php`, `AppSidebar.vue`, the
   * generated files by path, and the migrations directory by file name.
   */
  datatype State = State(web: string, sidebar: string, files: map<string, Artifact>, migrations: map<string, MigrationFile>)

  /** The final state, and the warnings printed or the exception that aborted the run. */
  datatype Run = Run(state: State, result: Result<seq<Warning>, Aborted>)

  /** The positions, in increasing order, of the steps that raised a warning. */
  ghost function RaisedPositions(ws: seq<Option<Warning>>): (idx: seq<nat>)
    ensures forall k :: 0 <= k < |idx| ==> idx[k] < |ws| && ws[idx[k]].Some?
    ensures forall k, l :: 0 <= k < l < |idx| ==> idx[k] < idx[l]
    ensures forall i :: 0 <= i < |ws| && ws[i].Some? ==> i in idx
  {
    if ws == [] then []
    else
      var n := |ws| - 1;
      var idx := RaisedPositions(ws[..n]);
      assert forall i :: 0 <= i < n ==> ws[..n][i] == ws[i];
      if ws[n].Some? then idx + [n] else idx
  }

  /** The warnings that were actually raised: every one of them, in the order of the steps. */
  function Raised(ws: seq<Option<Warning>>): (r: seq<Warning>)
    ensures |r| <= |ws|
    ensures |r| == |RaisedPositions(ws)|
    ensures forall k :: 0 <= k < |r| ==> r[k] == ws[RaisedPositions(ws)[k]].value
  {
    if ws == [] then []
    else
      var n := |ws| - 1;
      Raised(ws[..n]) + (if ws[n].Some? then [ws[n].value] else [])
  }

  /** Every warning a step raised is reported. */
  lemma RaisedReportsEvery(ws: seq<Option<Warning>>, i: nat)
    requires i < |ws| && ws[i].Some?
    ensures ws[i].value in Raised(ws)
  {
    var idx := RaisedPositions(ws);
    var k :| 0 <= k < |idx| && idx[k] == i;
    assert Raised(ws)[k] == ws[i].value;
  }

  /**
   * `File::put` of the four generated files: the four paths hold the given
   * artifacts, overwritten if they existed, and every other file is kept.
   */
  function WriteGenerated(files: map<string, Artifact>, n: Names, model: Artifact, controller: Artifact, create: Artifact, index: Artifact)
    : (r: map<string, Artifact>)
    ensures r.Keys == files.Keys + GeneratedPaths(n)
    ensures forall path :: path in files && path !in GeneratedPaths(n) ==> r[path] == files[path]
    ensures r[ModelPath(n.model)] == model && r[ControllerPath(n.controller)] == controller
    ensures r[CreateViewPath(n.viewFolder)] == create && r[IndexViewPath(n.viewFolder)] == index
  {
    GeneratedPathsDistinct(n);
    files[ModelPath(n.model) := model][ControllerPath(n.controller) := controller]
         [CreateViewPath(n.viewFolder) := create][IndexViewPath(n.viewFolder) := index]
  }

  /** The generated files for the given names and fields, written over `files`. */
  function WithGeneratedFiles(files: map<string, Artifact>, n: Names, fields: seq<Field>): (r: map<string, Artifact>)
    ensures r.Keys == files.Keys + GeneratedPaths(n)
    ensures forall path :: path in files && path !in GeneratedPaths(n) ==> r[path] == files[path]
  {
    WriteGenerated(files, n, ModelArtifact(ModelFileFor(n.model, fields)), ControllerArtifact(ControllerFileFor(n, fields)),
                   CreateViewArtifact(CreateViewFor(n, fields)), IndexViewArtifact(IndexViewFor(n, fields)))
  }

  /**
   * `appendControllerImport` on `routes/web.php`: a warning naming the
   * marker leaves the file as it was; with the marker present the import is
   * in the file afterwards.
   */
  function ImportStep(web: string, n: Names, stubs: Stubs): (r: Spliced)
    ensures r.warning.Some? ==> r == Spliced(web, Some(MissingSection(ControllersAnchor)))
    ensures Contains(web, ControllersAnchor) && ImportFragment(stubs.controllerImport, n.controller) != [] ==>
              r.warning.None? && StrContains(r.content, ImportFragment(stubs.controllerImport, n.controller))
  {
    var frag := ImportFragment(stubs.controllerImport, n.controller);
    if Contains(web, ControllersAnchor) && frag != [] then
      InsertAfterAnchorLeavesFragment(web, ControllersAnchor, frag);
      InsertAfterAnchor(web, ControllersAnchor, frag)
    else
      InsertAfterAnchor(web, ControllersAnchor, frag)
  }

  /**
   * `appendRoutes` on `routes/web.php`: a warning naming the marker leaves
   * the file as it was; with the marker present the route group is in the
   * file afterwards.
   */
  function RoutesStep(web: string, n: Names, stubs: Stubs): (r: Spliced)
    ensures r.warning.Some? ==> r == Spliced(web, Some(MissingSection(RoutesAnchor)))
    ensures Contains(web, RoutesAnchor) && RoutesFragment(stubs.routes, n.controller, n.routePrefix) != [] ==>
              r.warning.None? && StrContains(r.content, RoutesFragment(stubs.routes, n.controller, n.routePrefix))
  {
    var frag := RoutesFragment(stubs.routes, n.controller, n.routePrefix);
    if Contains(web, RoutesAnchor) && frag != [] then
      InsertAfterAnchorLeavesFragment(web, RoutesAnchor, frag);
      InsertAfterAnchor(web, RoutesAnchor, frag)
    else
      InsertAfterAnchor(web, RoutesAnchor, frag)
  }

  /**
   * `appendMenuItem` on `AppSidebar.vue`: a warning naming the marker leaves
   * the file as it was; with the marker present the item is in the file
   * afterwards.
   */
  function MenuStep(sidebar: string, n: Names, stubs: Stubs): (r: Spliced)
    ensures r.warning.Some? ==> r == Spliced(sidebar, Some(MissingSection(MenuAnchor)))
    ensures Contains(sidebar, MenuAnchor) && MenuFragment(stubs.menuItem, n.pluralTitle, n.routePrefix) != [] ==>
              r.warning.None? && StrContains(r.content, MenuFragment(stubs.menuItem, n.pluralTitle, n.routePrefix))
  {
    var item := MenuFragment(stubs.menuItem, n.pluralTitle, n.routePrefix);
    if Contains(sidebar, MenuAnchor) && item != [] then
      InsertBeforeAnchorLeavesItem(sidebar, MenuAnchor, item);
      InsertBeforeAnchor(sidebar, MenuAnchor, item)
    else
      InsertBeforeAnchor(sidebar, MenuAnchor, item)
  }

  /** The migrations directory after `createMigration`. */
  function WithMigration(migrations: map<string, MigrationFile>, mig: MigrationOutcome): map<string, MigrationFile>
  {
    if mig.Created? then migrations[mig.fileName := mig.file] else migrations
  }

  /**
   * The migrations directory after `createMigration` for this model and
   * stamp: the file name is added, an existing migration of that name is
   * never replaced, and a new one holds the model's table and columns.
   */
  function MigrationsAfter(migrations: map<string, MigrationFile>, model: string, fields: seq<Field>, stamp: string, infl: Inflector): (r: map<string, MigrationFile>)
    ensures r.Keys == migrations.Keys + {MigrationFileName(stamp, model, infl)}
    ensures forall m :: m in migrations ==> r[m] == migrations[m]
    ensures MigrationFileName(stamp, model, infl) !in migrations ==>
              r[MigrationFileName(stamp, model, infl)] == MigrationFile(model, TableName(model, infl), Columns(fields, infl))
  {
    WithMigration(migrations, CreateMigration(model, fields, stamp, migrations.Keys, infl))
  }

  /** The warning `createMigration` prints, if any. */
  function MigrationWarning(mig: MigrationOutcome): Option<Warning>
  {
    if mig.AlreadyExists? then Some(MigrationExists(mig.fileName)) else None
  }

  /** The warnings of the four steps after parsing, in the order `handle` runs them. */
  function StepWarnings(s: State, n: Names, p: Parsed, stubs: Stubs, stamp: string, infl: Inflector): seq<Option<Warning>>
  {
    var imp := ImportStep(s.web, n, stubs);
    [imp.warning, RoutesStep(imp.content, n, stubs).warning, MenuStep(s.sidebar, n, stubs).warning,
     MigrationWarning(CreateMigration(n.model, p.fields, stamp, s.migrations.Keys, infl))]
  }

  /**
   * Everything after a successful parse, in the order `handle` does it: the
   * four generated files are written (every other file is kept), the import
   * and then the routes are spliced into `web.php`, the item into the
   * sidebar, and the migration is added unless its name exists (an existing
   * migration is never replaced). The run succeeds with the parse warnings
   * followed by those the steps raised.
   */
  function Apply(s: State, n: Names, p: Parsed, stubs: Stubs, stamp: string, infl: Inflector): (r: Run)
    ensures r.result == Success(p.warnings + Raised(StepWarnings(s, n, p, stubs, stamp, infl)))
    ensures r.state.files == WithGeneratedFiles(s.files, n, p.fields)
    ensures r.state.files.Keys == s.files.Keys + GeneratedPaths(n)
    ensures forall path :: path in s.files && path !in GeneratedPaths(n) ==> r.state.files[path] == s.files[path]
    ensures r.state.web == RoutesStep(ImportStep(s.web, n, stubs).content, n, stubs).content
    ensures r.state.sidebar == MenuStep(s.sidebar, n, stubs).content
    ensures r.state.migrations == MigrationsAfter(s.migrations, n.model, p.fields, stamp, infl)
  {
    var imp := ImportStep(s.web, n, stubs);
    var routes := RoutesStep(imp.content, n, stubs);
    var menu := MenuStep(s.sidebar, n, stubs);
    Run(State(routes.content, menu.content, WithGeneratedFiles(s.files, n, p.fields), MigrationsAfter(s.migrations, n.model, p.fields, stamp, infl)),
        Success(p.warnings + Raised(StepWarnings(s, n, p, stubs, stamp, infl))))
  }

  /** What `make:crud` does to the files, as a function of the files before it runs. */
  function Generate(s: State, modelArg: string, fieldArgs: seq<string>, stubs: Stubs, stamp: string, infl: Inflector): (r: Run)
    ensures Parse(fieldArgs, infl).Failure? ==> r == Run(s, Failure(Parse(fieldArgs, infl).error))
    ensures Parse(fieldArgs, infl).Success? ==>
              r == Apply(s, DeriveNames(modelArg, infl), Parse(fieldArgs, infl).value, stubs, stamp, infl)
  {
    match Parse(fieldArgs, infl)
    case Failure(e) => Run(s, Failure(e))
    case Success(p) => Apply(s, DeriveNames(modelArg, infl), p, stubs, stamp, infl)
  }

  /**
   * A malformed field argument anywhere aborts the run before any file is
   * touched, whatever the arguments around it.
   */
  lemma MalformedFieldTouchesNothing(s: State, modelArg: string, fieldArgs: seq<string>, stubs: Stubs, stamp: string, infl: Inflector, i: nat)
    requires i < |fieldArgs| && !WellFormed(fieldArgs[i])
    ensures Generate(s, modelArg, fieldArgs, stubs, stamp, infl).state == s
    ensures Generate(s, modelArg, fieldArgs, stubs, stamp, infl).result.Failure?
  {
    ParseFailsOnFirstMalformed(fieldArgs, infl);
  }

  /**
   * A run that aborts writes nothing and reports, before the format error
   * of the first malformed argument, the warnings that the arguments in
   * front of it give: one per unknown type, in argument order
   * (`ParseWarnsInOrder` on that prefix).
   */
  lemma AbortKeepsEarlierWarnings(s: State, modelArg: string, fieldArgs: seq<string>, stubs: Stubs, stamp: string, infl: Inflector, i: nat)
    requires i < |fieldArgs| && !WellFormed(fieldArgs[i])
    requires forall j :: 0 <= j < i ==> WellFormed(fieldArgs[j])
    ensures Parse(fieldArgs[..i], infl).Success?
    ensures Generate(s, modelArg, fieldArgs, stubs, stamp, infl) ==
              Run(s, Failure(Aborted(Parse(fieldArgs[..i], infl).value.warnings, InvalidFieldFormat(fieldArgs[i]))))
  {
    ParseAbortKeepsWarnings(fieldArgs, infl, i);
  }

  /**
   * With the import marker in place and a one-line import, splicing the
   * import and then the routes a second time leaves `routes/web.php` as the
   * first time left it.
   */
  lemma WebSpliceIdempotent(web: string, imp: string, routes: string)
    requires imp != [] && routes != [] && SingleLine(imp)
    requires Contains(web, ControllersAnchor)
    ensures var w1 := InsertAfterAnchor(web, ControllersAnchor, imp).content;
            var w2 := InsertAfterAnchor(w1, RoutesAnchor, routes).content;
            InsertAfterAnchor(InsertAfterAnchor(w2, ControllersAnchor, imp).content, RoutesAnchor, routes).content == w2
  {
    var w1 := InsertAfterAnchor(web, ControllersAnchor, imp).content;
    InsertAfterAnchorLeavesFragment(web, ControllersAnchor, imp);
    AnchorsAreSingleLines();
    InsertAfterAnchorKeepsLine(w1, RoutesAnchor, routes, imp);
    InsertAfterAnchorIdempotent(w1, RoutesAnchor, routes);
  }

  /**
   * Applying the same names and fields a second time, with the same clock
   * reading, changes no file: the splices find their fragments, the generated
   * files get the same slots and the migration already exists.
   */
  lemma ApplyTwice(s: State, n: Names, p: Parsed, stubs: Stubs, stamp: string, infl: Inflector)
    requires Contains(s.web, ControllersAnchor)
    requires var imp := ImportFragment(stubs.controllerImport, n.controller);
             imp != [] && SingleLine(imp) &&
             RoutesFragment(stubs.routes, n.controller, n.routePrefix) != [] &&
             MenuFragment(stubs.menuItem, n.pluralTitle, n.routePrefix) != []
    ensures var once := Apply(s, n, p, stubs, stamp, infl).state;
            Apply(once, n, p, stubs, stamp, infl).state == once
  {
    var once := Apply(s, n, p, stubs, stamp, infl).state;
    WebSpliceIdempotent(s.web, ImportFragment(stubs.controllerImport, n.controller),
                        RoutesFragment(stubs.routes, n.controller, n.routePrefix));
    InsertBeforeAnchorIdempotent(s.sidebar, MenuAnchor, MenuFragment(stubs.menuItem, n.pluralTitle, n.routePrefix));
    GeneratedFilesTwice(s.files, n, p.fields);
    MigrationTwice(s.migrations, n.model, p.fields, stamp, infl);
  }

  /** Writing the same generated files again leaves the file map as it was. */
  lemma GeneratedFilesTwice(files: map<string, Artifact>, n: Names, fields: seq<Field>)
    ensures WithGeneratedFiles(WithGeneratedFiles(files, n, fields), n, fields) == WithGeneratedFiles(files, n, fields)
  {
    WriteGeneratedTwice(files, n, ModelArtifact(ModelFileFor(n.model, fields)), ControllerArtifact(ControllerFileFor(n, fields)),
                        CreateViewArtifact(CreateViewFor(n, fields)), IndexViewArtifact(IndexViewFor(n, fields)));
  }

  /** `File::put` of the same four artifacts a second time changes nothing. */
  lemma WriteGeneratedTwice(files: map<string, Artifact>, n: Names, model: Artifact, controller: Artifact, create: Artifact, index: Artifact)
    ensures var once := WriteGenerated(files, n, model, controller, create, index);
            WriteGenerated(once, n, model, controller, create, index) == once
  {
    var once := WriteGenerated(files, n, model, controller, create, index);
    var twice := WriteGenerated(once, n, model, controller, create, index);
    assert twice.Keys == once.Keys;
    forall path | path in once ensures twice[path] == once[path] {
      if path !in GeneratedPaths(n) {
        assert path in files;
      }
    }
  }

  /** With the same clock reading, the second `createMigration` finds the first one's file and keeps it. */
  lemma MigrationTwice(migrations: map<string, MigrationFile>, model: string, fields: seq<Field>, stamp: string, infl: Inflector)
    ensures var once := MigrationsAfter(migrations, model, fields, stamp, infl);
            var again := CreateMigration(model, fields, stamp, once.Keys, infl);
            again.AlreadyExists? && WithMigration(once, again) == once
  {
  }

  /**
   * Running `make:crud` again with the same arguments and the same clock
   * reading changes no file.
   */
  lemma RerunChangesNothing(s: State, modelArg: string, fieldArgs: seq<string>, stubs: Stubs, stamp: string, infl: Inflector)
    requires Contains(s.web, ControllersAnchor)
    requires var n := DeriveNames(modelArg, infl);
             var imp := ImportFragment(stubs.controllerImport, n.controller);
             imp != [] && SingleLine(imp) &&
             RoutesFragment(stubs.routes, n.controller, n.routePrefix) != [] &&
             MenuFragment(stubs.menuItem, n.pluralTitle, n.routePrefix) != []
    ensures var once := Generate(s, modelArg, fieldArgs, stubs, stamp, infl).state;
            Generate(once, modelArg, fieldArgs, stubs, stamp, infl).state == once
  {
    if Parse(fieldArgs, infl).Success? {
      ApplyTwice(s, DeriveNames(modelArg, infl), Parse(fieldArgs, infl).value, stubs, stamp, infl);
    }
  }

  /** A second run with the same clock reading reports that the migration already exists. */
  lemma RerunReportsExistingMigration(s: State, modelArg: string, fieldArgs: seq<string>, stubs: Stubs, stamp: string, infl: Inflector)
    requires Parse(fieldArgs, infl).Success?
    ensures var once := Generate(s, modelArg, fieldArgs, stubs, stamp, infl).state;
            var twice := Generate(once, modelArg, fieldArgs, stubs, stamp, infl).result;
            twice.Success? &&
            MigrationExists(MigrationFileName(stamp, DeriveNames(modelArg, infl).model, infl)) in twice.value
  {
    var n := DeriveNames(modelArg, infl);
    var p := Parse(fieldArgs, infl).value;
    var once := Apply(s, n, p, stubs, stamp, infl).state;
    var ws := StepWarnings(once, n, p, stubs, stamp, infl);
    assert ws[3] == Some(MigrationExists(MigrationFileName(stamp, n.model, infl)));
    RaisedReportsEvery(ws, 3);
  }

  /** The files of a project `make:crud` runs in. */
  class Workspace {
    var web: string
    var sidebar: string
    var files: map<string, Artifact>
    var migrations: map<string, MigrationFile>

    function Snapshot(): State
      reads this
    {
      State(web, sidebar, files, migrations)
    }

    constructor(web: string, sidebar: string, files: map<string, Artifact>, migrations: map<string, MigrationFile>)
      ensures Snapshot() == State(web, sidebar, files, migrations)
    {
      this.web := web;
      this.sidebar := sidebar;
      this.files := files;
      this.migrations := migrations;
    }

    /** `createModel`: writes the model file. */
    method CreateModel(model: string, fields: seq<Field>)
      modifies this
      ensures files == old(files)[ModelPath(model) := ModelArtifact(ModelFileFor(model, fields))]
      ensures web == old(web) && sidebar == old(sidebar) && migrations == old(migrations)
    {
      files := files[ModelPath(model) := ModelArtifact(ModelFileFor(model, fields))];
    }

    /** `createController`: writes the controller file. */
    method CreateController(n: Names, fields: seq<Field>)
      modifies this
      ensures files == old(files)[ControllerPath(n.controller) := ControllerArtifact(ControllerFileFor(n, fields))]
      ensures web == old(web) && sidebar == old(sidebar) && migrations == old(migrations)
    {
      files := files[ControllerPath(n.controller) := ControllerArtifact(ControllerFileFor(n, fields))];
    }

    /** `createViews`: writes `create.vue`, then `index.vue`, in the view folder. */
    method CreateViews(n: Names, fields: seq<Field>)
      modifies this
      ensures files == old(files)[CreateViewPath(n.viewFolder) := CreateViewArtifact(CreateViewFor(n, fields))]
                                 [IndexViewPath(n.viewFolder) := IndexViewArtifact(IndexViewFor(n, fields))]
      ensures web == old(web) && sidebar == old(sidebar) && migrations == old(migrations)
    {
      files := files[CreateViewPath(n.viewFolder) := CreateViewArtifact(CreateViewFor(n, fields))];
      files := files[IndexViewPath(n.viewFolder) := IndexViewArtifact(IndexViewFor(n, fields))];
    }

    /** The shared body of `appendControllerImport` and `appendRoutes` on `routes/web.php`. */
    method SpliceIntoWeb(anchor: string, fragment: string) returns (warning: Option<Warning>)
      requires anchor != []
      modifies this
      ensures web == InsertAfterAnchor(old(web), anchor, fragment).content
      ensures warning == InsertAfterAnchor(old(web), anchor, fragment).warning
      ensures sidebar == old(sidebar) && files == old(files) && migrations == old(migrations)
    {
      warning := None;
      if !StrContains(web, fragment) {
        var pos := Strpos(web, anchor);
        if pos.Some? {
          var insertPos := pos.value + |anchor|;
          web := web[..insertPos] + fragment + "\n" + web[insertPos..];
        } else {
          warning := Some(MissingSection(anchor));
        }
      }
    }

    /** `appendControllerImport`: the expanded import goes right after `// Controllers`. */
    method AppendControllerImport(controller: string, stub: string) returns (warning: Option<Warning>)
      modifies this
      ensures web == InsertAfterAnchor(old(web), ControllersAnchor, ImportFragment(stub, controller)).content
      ensures warning == InsertAfterAnchor(old(web), ControllersAnchor, ImportFragment(stub, controller)).warning
      ensures sidebar == old(sidebar) && files == old(files) && migrations == old(migrations)
    {
      warning := SpliceIntoWeb(ControllersAnchor, ImportFragment(stub, controller));
    }

    /** `appendRoutes`: the expanded route group goes right after `// Rotas`. */
    method AppendRoutes(controller: string, routePrefix: string, stub: string) returns (warning: Option<Warning>)
      modifies this
      ensures web == InsertAfterAnchor(old(web), RoutesAnchor, RoutesFragment(stub, controller, routePrefix)).content
      ensures warning == InsertAfterAnchor(old(web), RoutesAnchor, RoutesFragment(stub, controller, routePrefix)).warning
      ensures sidebar == old(sidebar) && files == old(files) && migrations == old(migrations)
    {
      warning := SpliceIntoWeb(RoutesAnchor, RoutesFragment(stub, controller, routePrefix));
    }

    /** `appendMenuItem`: the expanded menu item goes right before `// Novos Itens do Menu`. */
    method AppendMenuItem(pluralTitle: string, routePrefix: string, stub: string) returns (warning: Option<Warning>)
      modifies this
      ensures sidebar == InsertBeforeAnchor(old(sidebar), MenuAnchor, MenuFragment(stub, pluralTitle, routePrefix)).content
      ensures warning == InsertBeforeAnchor(old(sidebar), MenuAnchor, MenuFragment(stub, pluralTitle, routePrefix)).warning
      ensures web == old(web) && files == old(files) && migrations == old(migrations)
    {
      var item := MenuFragment(stub, pluralTitle, routePrefix);
      warning := None;
      if !StrContains(sidebar, item) {
        var pos := Strpos(sidebar, MenuAnchor);
        if pos.Some? {
          sidebar := sidebar[..pos.value] + item + "\n" + sidebar[pos.value..];
        } else {
          warning := Some(MissingSection(MenuAnchor));
        }
      }
    }

    /** `createMigration`: writes the migration unless a file of that name exists, in which case it warns. */
    method CreateMigrationFile(model: string, fields: seq<Field>, stamp: string, infl: Inflector) returns (warning: Option<Warning>)
      modifies this
      ensures var mig := CreateMigration(model, fields, stamp, old(migrations).Keys, infl);
              migrations == (if mig.Created? then old(migrations)[mig.fileName := mig.file] else old(migrations)) &&
              warning == (if mig.AlreadyExists? then Some(MigrationExists(mig.fileName)) else None)
      ensures web == old(web) && sidebar == old(sidebar) && files == old(files)
    {
      var name := MigrationFileName(stamp, model, infl);
      if name !in migrations {
        migrations := migrations[name := MigrationFile(model, TableName(model, infl), Columns(fields, infl))];
        warning := None;
      } else {
        warning := Some(MigrationExists(name));
      }
    }

    /** `handle`: parse first, so that a malformed field aborts before any file is written; then generate in order. */
    method Handle(modelArg: string, fieldArgs: seq<string>, stubs: Stubs, stamp: string, infl: Inflector)
      returns (result: Result<seq<Warning>, Aborted>)
      modifies this
      ensures Snapshot() == Generate(old(Snapshot()), modelArg, fieldArgs, stubs, stamp, infl).state
      ensures result == Generate(old(Snapshot()), modelArg, fieldArgs, stubs, stamp, infl).result
    {
      var n := DeriveNames(modelArg, infl);
      var parsed := ParseFields(fieldArgs, infl);
      if parsed.Failure? {
        return Failure(parsed.error);
      }
      var fields := parsed.value.fields;
      CreateModel(n.model, fields);
      CreateController(n, fields);
      CreateViews(n, fields);
      var w1 := AppendControllerImport(n.controller, stubs.controllerImport);
      var w2 := AppendRoutes(n.controller, n.routePrefix, stubs.routes);
      var w3 := AppendMenuItem(n.pluralTitle, n.routePrefix, stubs.menuItem);
      var w4 := CreateMigrationFile(n.model, fields, stamp, infl);
      result := Success(parsed.value.warnings + Raised([w1, w2, w3, w4]));
    }
  }
}
