/** Assembly requirement sets built from structural view ids (tensorcast/types.py). */
module Assembly {
  import opened Common
  import opened Text

  datatype TargetKind = StructuralView | CanonicalLayout

  datatype TargetRef = TargetRef(kind: TargetKind, viewId: Option<string>) {
    predicate Valid() {
      && (kind.StructuralView? ==> Truthy(viewId))
      && (kind.CanonicalLayout? ==> !Truthy(viewId))
    }
  }

  datatype Requirement = Requirement(slotId: string, target: TargetRef, coverage: string)

  datatype RequirementSet = RequirementSet(digest: string, count: int, carrier: string, inline: seq<Requirement>) {
    predicate Valid() {
      forall r | r in inline :: r.target.Valid()
    }
  }

  datatype Family = PP | EP | CanonicalFull

  const PP_COVERAGE := "pp_structural_view"
  const EP_COVERAGE := "ep_structural_view"
  const CANONICAL_COVERAGE := "canonical_full"
  const CANONICAL_SLOT := "__canonical_full__"

  // ----- Python's order on text

  predicate Less(a: string, b: string) {
    b != "" && (a == "" || a[0] < b[0] || (a[0] == b[0] && Less(a[1..], b[1..])))
  }

  lemma {:induction false} LessIsTotal(a: string, b: string)
    ensures Less(a, b) || Less(b, a) || a == b
  {
    if a != "" && b != "" && a[0] == b[0] {
      LessIsTotal(a[1..], b[1..]);
      assert a == [a[0]] + a[1..] && b == [b[0]] + b[1..];
    }
  }

  lemma {:induction false} LessIsTransitive(a: string, b: string, c: string)
    requires Less(a, b) && Less(b, c)
    ensures Less(a, c)
  {
    if a != "" && a[0] == b[0] == c[0] {
      LessIsTransitive(a[1..], b[1..], c[1..]);
    }
  }

  lemma {:induction false} LessIsIrreflexive(a: string)
    ensures !Less(a, a)
  {
    if a != "" { LessIsIrreflexive(a[1..]); }
  }

  ghost predicate StrictlySorted(s: seq<string>) {
    forall i, j | 0 <= i < j < |s| :: Less(s[i], s[j])
  }

  // ----- dedupe and sort

  function Insert(s: seq<string>, x: string): seq<string> {
    if s == [] then [x]
    else if x == s[0] then s
    else if Less(x, s[0]) then [x] + s
    else [s[0]] + Insert(s[1..], x)
  }

  lemma {:induction false} InsertProps(s: seq<string>, x: string)
    requires StrictlySorted(s)
    ensures StrictlySorted(Insert(s, x))
    ensures forall y :: y in Insert(s, x) <==> y == x || y in s
  {
    if s == [] || x == s[0] {
    } else if Less(x, s[0]) {
      forall j | 0 <= j < |s| ensures Less(x, s[j]) {
        if j > 0 { LessIsTransitive(x, s[0], s[j]); }
      }
    } else {
      LessIsTotal(x, s[0]);
      var t := Insert(s[1..], x);
      assert StrictlySorted(s[1..]);
      InsertProps(s[1..], x);
      assert forall y | y in t :: y == x || y in s[1..];
      forall j | 0 <= j < |t| ensures Less(s[0], t[j]) {
        assert t[j] in t;
      }
      assert s == [s[0]] + s[1..];
    }
  }

  /** `_dedupe_structural_view_ids`: trimmed, blanks dropped, sorted, each once. */
  function Dedupe(ids: seq<string>): seq<string> {
    if ids == [] then []
    else
      var rest, id := Dedupe(ids[1..]), Strip(ids[0]);
      if id == "" then rest else Insert(rest, id)
  }

  /** The set of ids a list names. */
  function Ids(ids: seq<string>): set<string> {
    set i | 0 <= i < |ids| && Strip(ids[i]) != "" :: Strip(ids[i])
  }

  function Elements(s: seq<string>): set<string> {
    set x | x in s
  }

  lemma {:induction false} DedupeProps(ids: seq<string>)
    ensures StrictlySorted(Dedupe(ids))
    ensures Elements(Dedupe(ids)) == Ids(ids)
  {
    if ids != [] {
      var rest, id := ids[1..], Strip(ids[0]);
      DedupeProps(rest);
      assert Ids(ids) == Ids(rest) + if id == "" then {} else {id} by {
        assert forall i | 1 <= i < |ids| :: ids[i] == rest[i - 1];
        assert forall i | 0 <= i < |rest| :: rest[i] == ids[i + 1];
      }
      if id != "" {
        InsertProps(Dedupe(rest), id);
        assert forall y :: y in Elements(Dedupe(ids)) <==> y in Dedupe(ids);
      }
    }
  }

  /** A set of texts has one strictly sorted listing. */
  lemma {:induction false} SortedListingIsUnique(a: seq<string>, b: seq<string>)
    requires StrictlySorted(a) && StrictlySorted(b) && Elements(a) == Elements(b)
    ensures a == b
  {
    if a == [] {
      NoElements(a);
      NoElements(b);
    } else {
      assert a[0] in Elements(b);
      assert b != [];
      FirstIsLeast(a, b);
      FirstIsLeast(b, a);
      NeverBothLess(a[0], b[0]);
      TailElements(a);
      TailElements(b);
      SortedListingIsUnique(a[1..], b[1..]);
      assert a == [a[0]] + a[1..] && b == [b[0]] + b[1..];
    }
  }

  lemma NoElements(s: seq<string>)
    ensures Elements(s) == {} <==> s == []
  {
    if s != [] { assert s[0] in Elements(s); }
  }

  lemma NeverBothLess(x: string, y: string)
    ensures !(Less(x, y) && Less(y, x))
  {
    if Less(x, y) && Less(y, x) {
      LessIsTransitive(x, y, x);
      LessIsIrreflexive(x);
    }
  }

  lemma FirstIsLeast(a: seq<string>, b: seq<string>)
    requires a != [] && b != [] && StrictlySorted(a) && Elements(a) == Elements(b)
    ensures a[0] == b[0] || Less(a[0], b[0])
  {
    assert b[0] in Elements(a);
    var j :| 0 <= j < |a| && a[j] == b[0];
  }

  lemma TailElements(a: seq<string>)
    requires a != [] && StrictlySorted(a)
    ensures StrictlySorted(a[1..]) && Elements(a[1..]) == Elements(a) - {a[0]}
  {
    LessIsIrreflexive(a[0]);
    assert a == [a[0]] + a[1..];
    assert forall x | x in a[1..] :: Less(a[0], x);
  }

  lemma {:induction false} SortedCount(s: seq<string>)
    requires StrictlySorted(s)
    ensures |Elements(s)| == |s|
  {
    if s != [] {
      TailElements(s);
      SortedCount(s[1..]);
      assert Elements(s) == Elements(s[1..]) + {s[0]};
    }
  }

  // ----- requirement sets

  function PieceRequirement(id: string, coverage: string): Requirement {
    Requirement(id, TargetRef(StructuralView, Some(id)), coverage)
  }

  function Pieces(ids: seq<string>, coverage: string): (rs: seq<Requirement>)
    ensures |rs| == |ids| && forall i | 0 <= i < |ids| :: rs[i] == PieceRequirement(ids[i], coverage)
  {
    seq(|ids|, i requires 0 <= i < |ids| => PieceRequirement(ids[i], coverage))
  }

  function FromViews(ids: seq<string>, coverage: string): Result<RequirementSet, string> {
    var views := Dedupe(ids);
    if views == [] then Err("requirements require at least one structural_view_id")
    else Ok(RequirementSet("", |views|, "inline", Pieces(views, coverage)))
  }

  function FromFamily(family: Family, ids: seq<string>): Result<RequirementSet, string> {
    match family
    case CanonicalFull =>
      Ok(RequirementSet("", 1, "inline",
                        [Requirement(CANONICAL_SLOT, TargetRef(CanonicalLayout, None), CANONICAL_COVERAGE)]))
    case PP => FromViews(ids, PP_COVERAGE)
    case EP => FromViews(ids, EP_COVERAGE)
  }

  /** The slots of a requirement set built from views, in order. */
  function Slots(rs: RequirementSet): (s: seq<string>)
    ensures |s| == |rs.inline|
  {
    seq(|rs.inline|, i requires 0 <= i < |rs.inline| => rs.inline[i].slotId)
  }

  /** PP and EP sets list every distinct trimmed id once, in increasing order; each
      slot targets its own view; an input without ids is rejected. */
  lemma RequirementSetShape(family: Family, ids: seq<string>)
    requires family != CanonicalFull
    ensures FromFamily(family, ids).Ok? <==> Ids(ids) != {}
    ensures FromFamily(family, ids).Ok? ==>
              var rs := FromFamily(family, ids).value;
              && StrictlySorted(Slots(rs)) && Elements(Slots(rs)) == Ids(ids)
              && rs.count == |rs.inline| == |Ids(ids)|
              && rs.Valid() && rs.digest == "" && rs.carrier == "inline"
              && forall r | r in rs.inline ::
                   && r.target == TargetRef(StructuralView, Some(r.slotId))
                   && r.coverage == if family == PP then "pp_structural_view" else "ep_structural_view"
  {
    DedupeProps(ids);
    var views := Dedupe(ids);
    if views != [] {
      assert views[0] in Elements(views);
      SortedCount(views);
      assert Slots(FromFamily(family, ids).value) == views;
      NoBlankIds(ids);
    }
  }

  lemma NoBlankIds(ids: seq<string>)
    ensures forall i | 0 <= i < |Dedupe(ids)| :: Dedupe(ids)[i] != ""
  {
    DedupeProps(ids);
    forall i | 0 <= i < |Dedupe(ids)| ensures Dedupe(ids)[i] != "" {
      assert Dedupe(ids)[i] in Elements(Dedupe(ids));
    }
  }

  /** Two lists of views give equal requirement sets exactly when they name the same ids. */
  lemma EqualSetsIffSameIds(family: Family, a: seq<string>, b: seq<string>)
    requires family != CanonicalFull
    ensures FromFamily(family, a) == FromFamily(family, b) <==> Ids(a) == Ids(b)
  {
    DedupeProps(a);
    DedupeProps(b);
    if FromFamily(family, a).Ok? { SlotsAreTheViews(family, a); }
    if FromFamily(family, b).Ok? { SlotsAreTheViews(family, b); }
    if Ids(a) == Ids(b) { SortedListingIsUnique(Dedupe(a), Dedupe(b)); }
  }

  lemma SlotsAreTheViews(family: Family, ids: seq<string>)
    requires family != CanonicalFull && FromFamily(family, ids).Ok?
    ensures Slots(FromFamily(family, ids).value) == Dedupe(ids)
  {
  }

  /** The canonical set ignores the ids: one requirement, for the whole layout. */
  lemma CanonicalSetShape(ids: seq<string>)
    ensures FromFamily(CanonicalFull, ids).Ok?
    ensures var rs := FromFamily(CanonicalFull, ids).value;
            && rs.count == 1 && rs.carrier == "inline" && rs.digest == "" && rs.Valid()
            && rs.inline == [Requirement("__canonical_full__", TargetRef(CanonicalLayout, None), "canonical_full")]
  {
  }

  function CoverageOf(family: Family): string {
    match family case PP => "pp_structural_view" case EP => "ep_structural_view" case CanonicalFull => "canonical_full"
  }

  lemma CoveragesDiffer(f: Family, g: Family)
    requires f != g
    ensures CoverageOf(f) != CoverageOf(g)
  {
    assert CoverageOf(PP)[0] == 'p' && CoverageOf(EP)[0] == 'e' && CoverageOf(CanonicalFull)[0] == 'c';
  }

  /** Sets of different families are never equal, whatever the views. */
  lemma FamiliesAreDistinct(f: Family, a: seq<string>, g: Family, b: seq<string>)
    requires f != g && FromFamily(f, a).Ok?
    ensures FromFamily(f, a) != FromFamily(g, b)
  {
    CoveragesDiffer(f, g);
    if FromFamily(g, b).Ok? {
      assert FromFamily(f, a).value.inline[0].coverage == CoverageOf(f);
      assert FromFamily(g, b).value.inline[0].coverage == CoverageOf(g);
    }
  }
}
