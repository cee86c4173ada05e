/**
 * The plan column of the data grid's popular-features demo: the chip each
 * plan gets, the rank the plan column sorts by, and the feature rows.
 */
module PopularFeatures {
  import opened Wrappers

  /** What `getChipProperties` returns: the avatar image, if any, and the chip's background colour. */
  datatype ChipProperties = ChipProperties(avatarLink: Option<string>, color: string)

  /** `getChipProperties(plan)`. */
  function GetChipProperties(plan: string): (r: ChipProperties)
    ensures plan == "Premium" ==> r == ChipProperties(Some("/static/x/premium.svg"), "#ffecc8")
    ensures plan == "Pro" ==> r == ChipProperties(Some("/static/x/pro.svg"), "#c8e9ff")
    ensures plan != "Premium" && plan != "Pro" ==> r == ChipProperties(None, "#c8ffdb")
  {
    match plan
    case "Premium" => ChipProperties(Some("/static/x/premium.svg"), "#ffecc8")
    case "Pro" => ChipProperties(Some("/static/x/pro.svg"), "#c8e9ff")
    case _ => ChipProperties(None, "#c8ffdb")
  }

  /** `PlanTag` renders an avatar image exactly when `avatarLink` is truthy. */
  predicate ShowsAvatar(chip: ChipProperties)
  {
    chip.avatarLink.Some? && chip.avatarLink.value != ""
  }

  /** `getSortingValue(plan)`: `Pro` ranks 1, `Premium` 2, anything else 0. */
  function SortingValue(plan: string): (r: int)
    ensures 0 <= r <= 2
    ensures r == 1 <==> plan == "Pro"
    ensures r == 2 <==> plan == "Premium"
  {
    match plan
    case "Pro" => 1
    case "Premium" => 2
    case _ => 0
  }

  /** The plan column's `sortComparator`. */
  function SortComparator(p1: string, p2: string): int
  {
    SortingValue(p1) - SortingValue(p2)
  }

  /** Only the paid plans carry an avatar. */
  lemma AvatarExactlyForPaidPlans(plan: string)
    ensures ShowsAvatar(GetChipProperties(plan)) <==> plan == "Pro" || plan == "Premium"
  {
  }

  /** Two plans share a chip colour exactly when they share a rank. */
  lemma ChipColourFollowsRank(p1: string, p2: string)
    ensures GetChipProperties(p1).color == GetChipProperties(p2).color <==> SortingValue(p1) == SortingValue(p2)
  {
  }

  /** Swapping the arguments negates the comparison. */
  lemma ComparatorAntisymmetric(p1: string, p2: string)
    ensures SortComparator(p1, p2) == -SortComparator(p2, p1)
  {
  }

  /** The comparator says "equal" exactly for plans of equal rank, and its sign is the order of the ranks. */
  lemma ComparatorZeroExactly(p1: string, p2: string)
    ensures SortComparator(p1, p2) == 0 <==> SortingValue(p1) == SortingValue(p2)
    ensures SortComparator(p1, p2) < 0 <==> SortingValue(p1) < SortingValue(p2)
  {
  }

  /** The comparator is a total preorder: transitive. */
  lemma ComparatorTransitive(p1: string, p2: string, p3: string)
    requires SortComparator(p1, p2) <= 0 && SortComparator(p2, p3) <= 0
    ensures SortComparator(p1, p3) <= 0
  {
  }

  /** A list in ascending plan order, as the initial `sortModel` asks. */
  predicate SortedByPlan(plans: seq<string>)
  {
    forall i, j :: 0 <= i < j < |plans| ==> SortComparator(plans[i], plans[j]) <= 0
  }

  /** Sorted ascending: every free plan comes before every `Pro`, and every `Pro` before every `Premium`. */
  lemma AscendingOrdersCommunityProPremium(plans: seq<string>)
    requires SortedByPlan(plans)
    ensures forall i, j :: 0 <= i < j < |plans| && plans[i] == "Pro" ==> plans[j] == "Pro" || plans[j] == "Premium"
    ensures forall i, j :: 0 <= i < j < |plans| && plans[i] == "Premium" ==> plans[j] == "Premium"
  {
    forall i, j | 0 <= i < j < |plans| && plans[i] == "Pro"
      ensures plans[j] == "Pro" || plans[j] == "Premium"
    {
      assert SortComparator(plans[i], plans[j]) <= 0;
    }
    forall i, j | 0 <= i < j < |plans| && plans[i] == "Premium"
      ensures plans[j] == "Premium"
    {
      assert SortComparator(plans[i], plans[j]) <= 0;
    }
  }

  /** One row of `featuresSet`; the description, demo element and code link are not modelled. */
  datatype Feature = Feature(id: nat, name: string, plan: string, detailPage: string, newBadge: bool)

  /** The plan column's `valueOptions`. */
  const PlanOptions: seq<string> := ["Premium", "Pro", "Community"]

  const FeaturesSet: seq<Feature> := [
    Feature(1, "Master detail", "Pro", "/master-detail/", false),
    Feature(2, "Inline editing", "Community", "/editing/", false),
    Feature(3, "Column groups", "Community", "/column-groups/", true),
    Feature(4, "Lazy loading", "Pro", "/pagination/", false),
    Feature(5, "Save and restore state", "Community", "/state/#save-and-restore-the-state", false),
    Feature(6, "Row grouping", "Premium", "/row-grouping/", false),
    Feature(7, "Excel export", "Premium", "/export/#excel-export", false),
    Feature(8, "Quick filter", "Community", "/filtering/quick-filter/", false),
    Feature(9, "Row reorder", "Pro", "/row-ordering/", false),
    Feature(10, "Column Pinning", "Pro", "/column-pinning/", false),
    Feature(11, "Row pinning", "Pro", "/row-pinning/", false),
    Feature(12, "Aggregation and Summary rows", "Premium", "/aggregation/", false),
    Feature(13, "Column visibility", "Community", "/column-visibility/", false),
    Feature(14, "Column virtualization", "Community", "/virtualization/#column-virtualization", false),
    Feature(15, "Row virtualization", "Pro", "/virtualization/#row-virtualization", false),
    Feature(16, "Tree data", "Pro", "/tree-data/", false),
    Feature(17, "Cell selection", "Premium", "/cell-selection/", true),
    Feature(18, "Column menu", "Community", "/column-menu/", true),
    Feature(19, "Clipboard paste", "Premium", "/clipboard/#clipboard-paste", true),
    Feature(20, "Header filters", "Pro", "/filtering/#header-filters", true)
  ]

  /** Row ids are distinct and every plan is one of the column's options. */
  lemma FeaturesSetWellFormed()
    ensures forall i, j :: 0 <= i < j < |FeaturesSet| ==> FeaturesSet[i].id != FeaturesSet[j].id
    ensures forall i :: 0 <= i < |FeaturesSet| ==> FeaturesSet[i].plan in PlanOptions
  {
    assert forall i :: 0 <= i < |FeaturesSet| ==> FeaturesSet[i].id == i + 1;
  }

  /** Every option of the plan column is a plan some feature has, and the options rank 2, 1, 0. */
  lemma PlanOptionsRanked()
    ensures forall k :: 0 <= k < |PlanOptions| ==> SortingValue(PlanOptions[k]) == 2 - k
    ensures forall k :: 0 <= k < |PlanOptions| ==> exists i :: 0 <= i < |FeaturesSet| && FeaturesSet[i].plan == PlanOptions[k]
  {
    assert FeaturesSet[5].plan == PlanOptions[0];
    assert FeaturesSet[0].plan == PlanOptions[1];
    assert FeaturesSet[1].plan == PlanOptions[2];
  }
}
