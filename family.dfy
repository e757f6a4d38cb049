/**
 * The `family` command's column sort and requirement display: the `SORT_KEYS` table, a stable
 * sort under the chosen column's key with unknown prices, spot prices and bandwidths last,
 * and `format_req`.
 */
module Family {
  import opened Wrappers
  import opened Text
  import opened Numerals
  import opened KeySort
  import opened Config

  /** The columns of `SORT_KEYS`, in the table's order. */
  datatype Column = Price | Spot | Vcpus | Memory | ApiName | Arch | Ebs

  function ColumnName(c: Column): string
  {
    match c
    case Price => "price"
    case Spot => "spot"
    case Vcpus => "vcpus"
    case Memory => "memory"
    case ApiName => "api_name"
    case Arch => "arch"
    case Ebs => "ebs"
  }

  /** `', '.join(SORT_KEYS.keys())`: the column names in the table's order */
  const ValidOptions: string := "price, spot, vcpus, memory, api_name, arch, ebs"

  /** `sort_by in SORT_KEYS`, with the error `sort_instances` raises otherwise. */
  function ParseColumn(sortBy: string): (r: Result<Column>)
    ensures r.Ok? ==> ColumnName(r.value) == sortBy
    ensures r.Err? ==> r.msg == "Unknown sort column: " + sortBy + ". Valid options: " + ValidOptions
  {
    if sortBy == "price" then Ok(Price)
    else if sortBy == "spot" then Ok(Spot)
    else if sortBy == "vcpus" then Ok(Vcpus)
    else if sortBy == "memory" then Ok(Memory)
    else if sortBy == "api_name" then Ok(ApiName)
    else if sortBy == "arch" then Ok(Arch)
    else if sortBy == "ebs" then Ok(Ebs)
    else Err("Unknown sort column: " + sortBy + ". Valid options: " + ValidOptions)
  }

  /** Every column's name selects it, and only the seven names are accepted. */
  lemma ColumnRoundTrip(c: Column, sortBy: string)
    ensures ParseColumn(ColumnName(c)) == Ok(c)
    ensures ParseColumn(sortBy).Ok? <==> exists d :: ColumnName(d) == sortBy
  {
  }

  /** `(v is None, v or 0)` */
  function OptKey(v: Option<real>): Key
  {
    NumKey(v.None?, v.GetOr(0.0))
  }

  /** The key function of `SORT_KEYS[c]`. */
  function KeyOf(c: Column): Instance -> Key
  {
    match c
    case Price => (x: Instance) => OptKey(x.price)
    case Spot => (x: Instance) => OptKey(x.spot)
    case Vcpus => (x: Instance) => NumKey(false, x.vcpus as real)
    case Memory => (x: Instance) => NumKey(false, x.memoryGb)
    case ApiName => (x: Instance) => StrKey(x.apiName)
    case Arch => (x: Instance) => StrKey(x.arch)
    case Ebs => (x: Instance) => OptKey(if x.ebsMbps.Some? then Some(x.ebsMbps.value as real) else None)
  }

  /**
   * `sort_instances`: an unknown column is an error; otherwise the instances in non-decreasing
   * key order, a permutation of the input in which instances with equal keys keep their order.
   */
  function SortInstances(instances: seq<Instance>, sortBy: string): (r: Result<seq<Instance>>)
    ensures r.Err? <==> forall c :: ColumnName(c) != sortBy
    ensures r.Err? ==> r.msg == "Unknown sort column: " + sortBy + ". Valid options: " + ValidOptions
    ensures r.Ok? ==> exists c :: ColumnName(c) == sortBy && SortedBy(KeyOf(c), r.value)
    ensures r.Ok? ==> multiset(r.value) == multiset(instances)
    ensures r.Ok? ==> forall c, k :: ColumnName(c) == sortBy ==> Class(KeyOf(c), r.value, k) == Class(KeyOf(c), instances, k)
  {
    ColumnRoundTrip(Price, sortBy);
    match ParseColumn(sortBy)
    case Err(e) => Err(e)
    case Ok(c) =>
      assert forall d :: ColumnName(d) == sortBy ==> d == c by {
        forall d | ColumnName(d) == sortBy ensures d == c { ColumnRoundTrip(d, sortBy); }
      }
      Ok(SortBy(KeyOf(c), instances))
  }

  /** The column whose name is known. */
  function Known(c: Column, x: Instance): bool
  {
    match c
    case Price => x.price.Some?
    case Spot => x.spot.Some?
    case Ebs => x.ebsMbps.Some?
    case _ => true
  }

  /** Sorting by price, spot or ebs puts every instance without that value after all that have it. */
  lemma UnknownLast(instances: seq<Instance>, c: Column, i: nat, j: nat)
    requires SortInstances(instances, ColumnName(c)).Ok?
    requires var r := SortInstances(instances, ColumnName(c)).value; i < j < |r| && Known(c, r[j])
    ensures Known(c, SortInstances(instances, ColumnName(c)).value[i])
  {
    ColumnRoundTrip(c, ColumnName(c));
    var r := SortInstances(instances, ColumnName(c)).value;
    assert r == SortBy(KeyOf(c), instances);
    assert !KeyLt(KeyOf(c)(r[j]), KeyOf(c)(r[i]));
  }

  /** The two instances of the same key keep their relative order through the sort. */
  lemma StableOrder(instances: seq<Instance>, c: Column, a: Instance, b: Instance)
    requires KeyOf(c)(a) == KeyOf(c)(b)
    requires Class(KeyOf(c), instances, KeyOf(c)(a)) == [a, b]
    ensures SortInstances(instances, ColumnName(c)).Ok?
    ensures Class(KeyOf(c), SortInstances(instances, ColumnName(c)).value, KeyOf(c)(a)) == [a, b]
  {
    ColumnRoundTrip(c, ColumnName(c));
  }

  /** `format_req`: `name=min` for an exact requirement, `name=min:max` for a range. */
  function FormatReq(name: string, req: Requirement): (r: string)
    ensures StartsWith(r, name + "=")
    ensures req.maxVal.None? ==> r[|name| + 1..] == Show(req.minVal)
    ensures req.maxVal.Some? ==> r[|name| + 1..] == Show(req.minVal) + ":" + Show(req.maxVal.value)
  {
    name + "=" + RequirementString(req)
  }

  /** The value part of a displayed integer requirement reads back as the requirement. */
  lemma FormatReqRoundTrip(name: string, req: Requirement)
    requires !HasChar(name, '=')
    requires req.minVal.Int? && (req.maxVal.Some? ==> req.maxVal.value.Int?)
    requires WithinStrLimit(req.minVal.i) && (req.maxVal.Some? ==> WithinStrLimit(req.maxVal.value.i))
    ensures var r := FormatReq(name, req);
      HasChar(r, '=') && Before(r, '=') == name && ParseCliRequirement(After(r, '=')) == Ok(req)
  {
    assert FormatReq(name, req) == name + ['='] + RequirementString(req);
    BeforeAfterConcat(name, '=', RequirementString(req));
    CliRoundTrip(req);
  }

  /** `cpu=4:8` for the range 4 to 8, `cpu=4` for exactly 4. */
  lemma FormatReqExample()
    ensures FormatReq("cpu", Requirement(Int(4), Some(Int(8)))) == "cpu=4:8"
    ensures FormatReq("cpu", Requirement(Int(4), None)) == "cpu=4"
  {
  }
}
