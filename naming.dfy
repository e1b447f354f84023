/**
 * The names `handle` derives from the `modelName` argument, which is either
 * `Model` or `Model:Title` (the title possibly quoted).
 */
module Naming {
  import opened Strings

  /** Every name the generator threads through its templates. */
  datatype Names = Names(
    model: string,
    title: string,
    controller: string,
    viewFolder: string,
    routePrefix: string,
    modelLower: string,
    pluralTitle: string,
    pluralLower: string)

  /**
   * The model is the first `:`-segment; the title is the second one with its
   * quotes trimmed, or the model when there is no second segment; further
   * segments are ignored.
   */
  function DeriveNames(arg: string, infl: Inflector): (n: Names)
    ensures n.model == Split(arg, ':')[0]
    ensures n.controller == n.model + "Controller"
    ensures n.viewFolder == UcFirst(n.model)
    ensures n.routePrefix == n.modelLower == ToLower(n.model)
    ensures n.pluralTitle == infl.plural(n.title)
    ensures n.pluralLower == ToLower(n.pluralTitle)
  {
    var parts := Split(arg, ':');
    var model := parts[0];
    var title := if |parts| > 1 then TrimQuotes(parts[1]) else model;
    var plural := infl.plural(title);
    Names(model, title, model + "Controller", UcFirst(model), ToLower(model), ToLower(model), plural, ToLower(plural))
  }

  /** Without a colon the whole argument is both the model and the title. */
  lemma PlainModelName(arg: string, infl: Inflector)
    requires ':' !in arg
    ensures DeriveNames(arg, infl).model == arg
    ensures DeriveNames(arg, infl).title == arg
  {
    SplitNoSeparator(arg, ':');
  }

  /** `Model:Title` gives that model and the title without its surrounding quotes. */
  lemma TitledModelName(model: string, title: string, infl: Inflector)
    requires ':' !in model && ':' !in title
    ensures DeriveNames(model + ":" + title, infl).model == model
    ensures DeriveNames(model + ":" + title, infl).title == TrimQuotes(title)
  {
    SplitNoSeparator(model, ':');
    SplitAppendPart(model, title, ':');
    assert model + ":" + title == model + [':'] + title;
  }

  /** A third segment changes nothing: the title is still the second one. */
  lemma ExtraSegmentsIgnored(model: string, title: string, extra: string, infl: Inflector)
    requires ':' !in model && ':' !in title && ':' !in extra
    ensures DeriveNames(model + ":" + title + ":" + extra, infl) == DeriveNames(model + ":" + title, infl)
  {
    SplitNoSeparator(model, ':');
    SplitAppendPart(model, title, ':');
    SplitAppendPart(model + ":" + title, extra, ':');
    assert model + ":" + title == model + [':'] + title;
    assert model + ":" + title + ":" + extra == (model + ":" + title) + [':'] + extra;
  }

  /** The view folder and the route prefix name the same model: they differ only in letter case. */
  lemma {:induction false} FolderAndPrefixAgree(arg: string, infl: Inflector)
    ensures ToLower(DeriveNames(arg, infl).viewFolder) == DeriveNames(arg, infl).routePrefix
  {
    var m := DeriveNames(arg, infl).model;
    var u := UcFirst(m);
    if m != [] && IsLower(m[0]) {
      forall j | 0 <= j < |m|
        ensures ToLower(u)[j] == ToLower(m)[j]
      {
        if j > 0 {
          assert u[1..][j - 1] == m[1..][j - 1];
        }
      }
    }
  }
}
