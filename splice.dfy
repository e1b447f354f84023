/**
 * The anchor splicer behind `appendControllerImport`, `appendRoutes` and
 * `appendMenuItem`: a generated fragment is inserted next to the first
 * occurrence of a marker comment, unless the file already contains it.
 */
module Splice {
  import opened Wrappers
  import opened Strings
  import opened Diagnostics

  /** The marker after which controller imports go in `routes/web.php`. */
  const ControllersAnchor := "// Controllers\n"
  /** The marker after which route groups go in `routes/web.php`. */
  const RoutesAnchor := "// Rotas\n"
  /** The marker before which menu items go in `AppSidebar.vue`. */
  const MenuAnchor := "// Novos Itens do Menu\n"

  /** The new file content and the warning printed, if any. */
  datatype Spliced = Spliced(content: string, warning: Option<Warning>)

  /** `ins` placed at `k` in `s`. */
  function InsertAt(s: string, k: nat, ins: string): string
    requires k <= |s|
  {
    s[..k] + ins + s[k..]
  }

  /**
   * Import and route splice: skip when the fragment is already present, warn
   * when the marker is missing, otherwise insert the fragment and a newline
   * right after the first marker.
   */
  function InsertAfterAnchor(content: string, anchor: string, fragment: string): (r: Spliced)
    requires anchor != []
    ensures StrContains(content, fragment) ==> r == Spliced(content, None)
    ensures !StrContains(content, fragment) && !Contains(content, anchor) ==>
              r == Spliced(content, Some(MissingSection(anchor)))
    ensures !StrContains(content, fragment) && Contains(content, anchor) ==>
              r.warning == None && |r.content| == |content| + |fragment| + 1
  {
    if StrContains(content, fragment) then Spliced(content, None)
    else
      match Strpos(content, anchor)
      case None => Spliced(content, Some(MissingSection(anchor)))
      case Some(pos) =>
        Spliced(InsertAt(content, pos + |anchor|, fragment + "\n"), None)
  }

  /**
   * Menu splice: the same guards, but the item and a newline go right before
   * the first marker.
   */
  function InsertBeforeAnchor(content: string, anchor: string, item: string): (r: Spliced)
    requires anchor != []
    ensures StrContains(content, item) ==> r == Spliced(content, None)
    ensures !StrContains(content, item) && !Contains(content, anchor) ==>
              r == Spliced(content, Some(MissingSection(anchor)))
    ensures !StrContains(content, item) && Contains(content, anchor) ==>
              r.warning == None && |r.content| == |content| + |item| + 1
  {
    if StrContains(content, item) then Spliced(content, None)
    else
      match Strpos(content, anchor)
      case None => Spliced(content, Some(MissingSection(anchor)))
      case Some(pos) => Spliced(InsertAt(content, pos, item + "\n"), None)
  }

  /** Where each character of `s` lands after an insertion at `k`. */
  lemma InsertAtIndex(s: string, k: nat, ins: string)
    requires k <= |s|
    ensures |InsertAt(s, k, ins)| == |s| + |ins|
    ensures forall m :: 0 <= m < k ==> InsertAt(s, k, ins)[m] == s[m]
    ensures forall m :: k <= m < |s| ==> InsertAt(s, k, ins)[m + |ins|] == s[m]
    ensures InsertAt(s, k, ins)[..k] == s[..k]
    ensures InsertAt(s, k, ins)[k..] == ins + s[k..]
    ensures InsertAt(s, k, ins)[k..k + |ins|] == ins
    ensures forall m :: 0 <= m < |ins| ==> InsertAt(s, k, ins)[k + m] == ins[m]
    ensures InsertAt(s, k, ins)[k + |ins|..] == s[k..]
  {
    var t := InsertAt(s, k, ins);
    assert t == s[..k] + (ins + s[k..]);
  }

  /** Text that followed `k` still follows the inserted text. */
  lemma InsertAtPrefix(s: string, k: nat, ins: string, y: string)
    requires k + |y| <= |s| && s[k..k + |y|] == y
    ensures InsertAt(s, k, ins)[..k + |ins| + |y|] == s[..k] + ins + y
  {
    assert s[k..][..|y|] == y;
  }

  /** A second insertion at the same place goes in front of the first one. */
  lemma InsertAtSamePlace(s: string, k: nat, x: string, y: string)
    requires k <= |s|
    ensures InsertAt(InsertAt(s, k, x), k, y) == InsertAt(s, k, y + x)
  {
    InsertAtIndex(s, k, x);
    assert InsertAt(InsertAt(s, k, x), k, y) == s[..k] + (y + x) + s[k..];
  }

  /** A second insertion right behind the first one follows it. */
  lemma InsertAtBehind(s: string, k: nat, x: string, y: string)
    requires k <= |s|
    ensures InsertAt(InsertAt(s, k, x), k + |x|, y) == InsertAt(s, k, x + y)
  {
    var t := InsertAt(s, k, x);
    InsertAtIndex(s, k, x);
    assert t[..k + |x|] == s[..k] + x;
    assert InsertAt(t, k + |x|, y) == s[..k] + (x + y) + s[k..];
  }

  /** An insertion at `k` keeps every occurrence that lies wholly before or after `k`, shifted if after. */
  lemma InsertKeepsOccurrence(s: string, k: nat, ins: string, x: string, i: nat)
    requires k <= |s|
    requires OccursAt(s, x, i)
    requires i + |x| <= k || k <= i
    ensures OccursAt(InsertAt(s, k, ins), x, if k <= i then i + |ins| else i)
  {
    var t := InsertAt(s, k, ins);
    InsertAtIndex(s, k, ins);
    if k <= i {
      var j := i + |ins|;
      forall m | 0 <= m < |x| ensures t[j + m] == x[m] {
        assert s[i..i + |x|][m] == s[i + m];
      }
      assert t[j..j + |x|] == x;
    } else {
      forall m | 0 <= m < |x| ensures t[i + m] == x[m] {
        assert s[i..i + |x|][m] == s[i + m];
      }
      assert t[i..i + |x|] == x;
    }
  }

  /**
   * An insertion at `k` leaves the first occurrence of `x` where it was, as
   * long as that occurrence ends at or before `k`.
   */
  lemma InsertKeepsFirstOccurrence(s: string, k: nat, ins: string, x: string)
    requires k <= |s|
    requires Strpos(s, x).Some? && Strpos(s, x).value + |x| <= k
    ensures Strpos(InsertAt(s, k, ins), x) == Strpos(s, x)
  {
    var p := Strpos(s, x).value;
    var t := InsertAt(s, k, ins);
    InsertKeepsOccurrence(s, k, ins, x, p);
    forall j | 0 <= j < p ensures !OccursAt(t, x, j) {
      if OccursAt(t, x, j) {
        assert t[j..j + |x|] == s[j..j + |x|];
        assert OccursAt(s, x, j);
        assert false;
      }
    }
    assert Strpos(t, x).Some?;
  }

  /** When the fragment is new and the marker present, the result is the fragment placed after the first marker. */
  lemma InsertAfterAnchorPlacement(content: string, anchor: string, fragment: string)
    requires anchor != []
    requires !StrContains(content, fragment) && Contains(content, anchor)
    ensures var p := Strpos(content, anchor).value;
            var k := p + |anchor|;
            var r := InsertAfterAnchor(content, anchor, fragment).content;
            OccursAt(content, anchor, p) && (forall j :: 0 <= j < p ==> !OccursAt(content, anchor, j)) &&
            k <= |content| && r[..k] == content[..k] && r[k..k + |fragment|] == fragment &&
            r[k + |fragment|] == '\n' && r[k + |fragment| + 1..] == content[k..]
  {
  }

  /** A line `x` inserted at `k`: what precedes `k` is kept, then `x` and a newline, then the rest. */
  lemma InsertLineAt(s: string, k: nat, x: string)
    requires k <= |s|
    ensures var r := InsertAt(s, k, x + "\n");
            r[..k] == s[..k] && r[k..k + |x|] == x && r[k + |x|] == '\n' && r[k + |x| + 1..] == s[k..]
  {
    var r := InsertAt(s, k, x + "\n");
    InsertAtIndex(s, k, x + "\n");
    assert r[k + |x|] == (x + "\n")[|x|];
    assert r[k..k + |x|] == r[k..k + |x| + 1][..|x|];
  }

  /** When the item is new and the marker present, the result is the item placed before the first marker. */
  lemma InsertBeforeAnchorPlacement(content: string, anchor: string, item: string)
    requires anchor != []
    requires !StrContains(content, item) && Contains(content, anchor)
    ensures var p := Strpos(content, anchor).value;
            var r := InsertBeforeAnchor(content, anchor, item).content;
            OccursAt(content, anchor, p) && (forall j :: 0 <= j < p ==> !OccursAt(content, anchor, j)) &&
            r[..p] == content[..p] && r[p..p + |item|] == item &&
            r[p + |item|] == '\n' && r[p + |item| + 1..] == content[p..] && OccursAt(r, anchor, p + |item| + 1)
  {
    var p := Strpos(content, anchor).value;
    assert InsertBeforeAnchor(content, anchor, item).content == InsertAt(content, p, item + "\n");
    InsertLineAt(content, p, item);
    InsertKeepsOccurrence(content, p, item + "\n", anchor, p);
  }

  /** After a successful insertion the fragment is contained in the result. */
  lemma InsertedIsContained(s: string, k: nat, fragment: string)
    requires k <= |s| && fragment != []
    ensures StrContains(InsertAt(s, k, fragment + "\n"), fragment)
  {
    var t := InsertAt(s, k, fragment + "\n");
    InsertAtIndex(s, k, fragment + "\n");
    assert t[k..k + |fragment|] == t[k..k + |fragment| + 1][..|fragment|];
    assert OccursAt(t, fragment, k);
  }

  /** Splicing an import or route block a second time changes nothing. */
  lemma InsertAfterAnchorIdempotent(content: string, anchor: string, fragment: string)
    requires anchor != [] && fragment != []
    ensures var once := InsertAfterAnchor(content, anchor, fragment).content;
            InsertAfterAnchor(once, anchor, fragment).content == once
  {
    if !StrContains(content, fragment) && Contains(content, anchor) {
      var k := Strpos(content, anchor).value + |anchor|;
      InsertedIsContained(content, k, fragment);
    }
  }

  /** Once the marker is present, a non-empty fragment is in the file after the splice, whether it was added or already there. */
  lemma InsertAfterAnchorLeavesFragment(content: string, anchor: string, fragment: string)
    requires anchor != [] && fragment != [] && Contains(content, anchor)
    ensures StrContains(InsertAfterAnchor(content, anchor, fragment).content, fragment)
  {
    if !StrContains(content, fragment) {
      var k := Strpos(content, anchor).value + |anchor|;
      InsertedIsContained(content, k, fragment);
    }
  }

  /** Once the marker is present, a non-empty menu item is in the file after the splice, whether it was added or already there. */
  lemma InsertBeforeAnchorLeavesItem(content: string, anchor: string, item: string)
    requires anchor != [] && item != [] && Contains(content, anchor)
    ensures StrContains(InsertBeforeAnchor(content, anchor, item).content, item)
  {
    if !StrContains(content, item) {
      var p := Strpos(content, anchor).value;
      InsertedIsContained(content, p, item);
    }
  }

  /** Splicing a menu item a second time changes nothing. */
  lemma InsertBeforeAnchorIdempotent(content: string, anchor: string, item: string)
    requires anchor != [] && item != []
    ensures var once := InsertBeforeAnchor(content, anchor, item).content;
            InsertBeforeAnchor(once, anchor, item).content == once
  {
    if !StrContains(content, item) && Contains(content, anchor) {
      var p := Strpos(content, anchor).value;
      InsertedIsContained(content, p, item);
    }
  }

  /**
   * The containment guard ignores an empty fragment (`Str::contains` never
   * finds the empty needle), so each splice of an empty fragment adds one more
   * newline after the marker.
   */
  lemma EmptyFragmentIsNotIdempotent(content: string, anchor: string)
    requires anchor != [] && Contains(content, anchor)
    ensures var once := InsertAfterAnchor(content, anchor, "").content;
            |InsertAfterAnchor(once, anchor, "").content| == |once| + 1 == |content| + 2
  {
    var once := InsertAfterAnchor(content, anchor, "").content;
    var p := Strpos(content, anchor).value;
    assert OccursAt(once, anchor, p) by {
      assert once[..p + |anchor|] == content[..p + |anchor|];
      assert once[p..p + |anchor|] == content[p..p + |anchor|];
    }
  }

  /** Inserting after the first marker leaves that marker the first one. */
  lemma FirstAnchorStaysBeforeFragment(content: string, anchor: string, a: string)
    requires anchor != [] && a != []
    requires Contains(content, anchor) && !StrContains(content, a)
    ensures var k := Strpos(content, anchor).value + |anchor|;
            var once := InsertAfterAnchor(content, anchor, a).content;
            Strpos(once, anchor) == Strpos(content, anchor) &&
            once[..k] == content[..k] && once[k..] == a + "\n" + content[k..]
  {
    var k := Strpos(content, anchor).value + |anchor|;
    var once := InsertAfterAnchor(content, anchor, a).content;
    assert once == InsertAt(content, k, a + "\n");
    InsertKeepsFirstOccurrence(content, k, a + "\n", anchor);
    InsertAtIndex(content, k, a + "\n");
  }

  /**
   * Imports and routes accumulate newest first: splicing `a` and then `b`
   * after the same marker puts `b` above `a`, right under the marker.
   */
  lemma InsertAfterAnchorNewestFirst(content: string, anchor: string, a: string, b: string)
    requires anchor != [] && a != [] && b != []
    requires Contains(content, anchor) && !StrContains(content, a)
    requires !StrContains(InsertAfterAnchor(content, anchor, a).content, b)
    ensures var k := Strpos(content, anchor).value + |anchor|;
            var twice := InsertAfterAnchor(InsertAfterAnchor(content, anchor, a).content, anchor, b).content;
            twice == InsertAt(content, k, b + "\n" + a + "\n")
  {
    var k := Strpos(content, anchor).value + |anchor|;
    var once := InsertAfterAnchor(content, anchor, a).content;
    FirstAnchorStaysBeforeFragment(content, anchor, a);
    assert once == InsertAt(content, k, a + "\n");
    assert InsertAfterAnchor(once, anchor, b).content == InsertAt(once, k, b + "\n");
    InsertAtSamePlace(content, k, a + "\n", b + "\n");
    assert b + "\n" + (a + "\n") == b + "\n" + a + "\n";
  }

  /**
   * The item does not, together with what precedes the marker, form an
   * earlier copy of the marker.
   */
  predicate CreatesNoEarlierAnchor(content: string, anchor: string, item: string)
    requires anchor != [] && Strpos(content, anchor).Some?
  {
    !Contains(content[..Strpos(content, anchor).value] + item + "\n" + anchor[..|anchor| - 1], anchor)
  }

  /** Under that condition the marker's first occurrence moves right behind the inserted item. */
  lemma FirstAnchorFollowsItem(content: string, anchor: string, a: string)
    requires anchor != [] && a != []
    requires Contains(content, anchor) && !StrContains(content, a)
    requires CreatesNoEarlierAnchor(content, anchor, a)
    ensures var p := Strpos(content, anchor).value;
            var once := InsertBeforeAnchor(content, anchor, a).content;
            Strpos(once, anchor) == Some(p + |a| + 1) && once == InsertAt(content, p, a + "\n")
  {
    var p := Strpos(content, anchor).value;
    InsertBeforeAnchorIsInsertAt(content, anchor, a);
    assert content[..p] + a + "\n" + anchor[..|anchor| - 1] == content[..p] + (a + "\n") + anchor[..|anchor| - 1];
    FirstOccurrenceBehindInsert(content, p, a + "\n", anchor);
  }

  /**
   * Inserting `ins` just before the first occurrence of `pat` moves that
   * occurrence behind `ins`, unless `ins` completes an earlier one.
   */
  lemma FirstOccurrenceBehindInsert(s: string, p: nat, ins: string, pat: string)
    requires pat != [] && Strpos(s, pat) == Some(p)
    requires !Contains(s[..p] + ins + pat[..|pat| - 1], pat)
    ensures Strpos(InsertAt(s, p, ins), pat) == Some(p + |ins|)
  {
    var t := InsertAt(s, p, ins);
    var q := p + |ins|;
    InsertKeepsOccurrence(s, p, ins, pat, p);
    var y := pat[..|pat| - 1];
    assert s[p..p + |y|] == s[p..p + |pat|][..|y|];
    InsertAtPrefix(s, p, ins, y);
    NoOccurrenceInPrefix(t, s[..p] + ins + y, pat, q);
    FirstOccurrenceAt(t, pat, q);
  }

  /** A menu splice that goes ahead is an insertion of the item and a newline at the first marker. */
  lemma InsertBeforeAnchorIsInsertAt(content: string, anchor: string, item: string)
    requires anchor != [] && !StrContains(content, item) && Contains(content, anchor)
    ensures InsertBeforeAnchor(content, anchor, item).content == InsertAt(content, Strpos(content, anchor).value, item + "\n")
  {
  }

  /** An occurrence with none before it is the one `strpos` finds. */
  lemma FirstOccurrenceAt(t: string, pat: string, q: nat)
    requires OccursAt(t, pat, q) && forall j :: 0 <= j < q ==> !OccursAt(t, pat, j)
    ensures Strpos(t, pat) == Some(q)
  {
  }

  /** A text that begins with `x` has no occurrence of `pat` that lies wholly inside `x` when `x` has none. */
  lemma NoOccurrenceInPrefix(t: string, x: string, pat: string, q: nat)
    requires |x| <= |t| && t[..|x|] == x && !Contains(x, pat)
    requires q + |pat| <= |x| + 1
    ensures forall j :: 0 <= j < q ==> !OccursAt(t, pat, j)
  {
    assert forall k :: 0 <= k < |x| ==> t[k] == x[k] by {
      forall k | 0 <= k < |x| ensures t[k] == x[k] {
        assert t[..|x|][k] == t[k];
      }
    }
    forall j | 0 <= j < q
      ensures !OccursAt(t, pat, j)
    {
      assert t[j..j + |pat|] == x[j..j + |pat|];
      assert !OccursAt(x, pat, j);
    }
  }

  /**
   * Menu items accumulate in generation order: splicing `a` and then `b`
   * before the same marker leaves `a` above `b`, and `b` right above the marker.
   */
  lemma InsertBeforeAnchorGenerationOrder(content: string, anchor: string, a: string, b: string)
    requires anchor != [] && a != [] && b != []
    requires Contains(content, anchor) && !StrContains(content, a)
    requires CreatesNoEarlierAnchor(content, anchor, a)
    requires !StrContains(InsertBeforeAnchor(content, anchor, a).content, b)
    ensures var p := Strpos(content, anchor).value;
            var twice := InsertBeforeAnchor(InsertBeforeAnchor(content, anchor, a).content, anchor, b).content;
            twice == InsertAt(content, p, a + "\n" + b + "\n")
  {
    var p := Strpos(content, anchor).value;
    var once := InsertBeforeAnchor(content, anchor, a).content;
    FirstAnchorFollowsItem(content, anchor, a);
    assert InsertBeforeAnchor(once, anchor, b).content == InsertAt(once, p + |a + "\n"|, b + "\n");
    InsertAtBehind(content, p, a + "\n", b + "\n");
    assert a + "\n" + (b + "\n") == a + "\n" + b + "\n";
  }

  /** No newline except, possibly, a final one. */
  predicate SingleLine(x: string)
  {
    forall i :: 0 <= i < |x| - 1 ==> x[i] != '\n'
  }

  /** The three markers are single lines, each ended by its newline. */
  lemma AnchorsAreSingleLines()
    ensures SingleLine(ControllersAnchor) && ControllersAnchor[|ControllersAnchor| - 1] == '\n'
    ensures SingleLine(RoutesAnchor) && RoutesAnchor[|RoutesAnchor| - 1] == '\n'
    ensures SingleLine(MenuAnchor)
  {
  }

  /** A position just past a newline never falls strictly inside a single-line occurrence. */
  lemma LineEndIsNotInside(s: string, x: string, i: nat, k: nat)
    requires OccursAt(s, x, i) && SingleLine(x)
    requires 0 < k <= |s| && s[k - 1] == '\n'
    ensures i + |x| <= k || k <= i
  {
    assert forall m :: i <= m < i + |x| ==> s[m] == x[m - i];
  }

  /**
   * A splice after a marker that ends a line cannot cut through a
   * single-line text, so every such text the file contained survives it.
   */
  lemma InsertAfterAnchorKeepsLine(content: string, anchor: string, fragment: string, x: string)
    requires anchor != [] && anchor[|anchor| - 1] == '\n'
    requires SingleLine(x) && StrContains(content, x)
    ensures StrContains(InsertAfterAnchor(content, anchor, fragment).content, x)
  {
    if !StrContains(content, fragment) && Contains(content, anchor) {
      var k := Strpos(content, anchor).value + |anchor|;
      var i :| 0 <= i <= |content| && OccursAt(content, x, i);
      LineEndIsNotInside(content, x, i, k);
      InsertKeepsOccurrence(content, k, fragment + "\n", x, i);
      assert InsertAfterAnchor(content, anchor, fragment).content == InsertAt(content, k, fragment + "\n");
    }
  }
}
