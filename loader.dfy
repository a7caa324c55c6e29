/**
 * Which files the loader reads. File existence is the set `existing`; reading
 * and parsing the tables is outside the model.
 */
module Loader {
  import opened Values

  const PlacementsFile: string := "placement_recommendations.csv"
  const InventoryFile: string := "inventory_data.csv"

  /** The layout files probed, in order, when no override is given. */
  const LayoutCandidates: seq<string> := ["locations_data_extended.csv", "warehouse_layout.csv", "locations_data.csv"]

  /** The `FileNotFoundError`s the loader raises. */
  datatype LoadError = PlacementsNotFound | LayoutNotFound(path: string) | NoLayoutFound

  /** The files the run goes on to read. */
  datatype Sources = Sources(layoutPath: string, readInventory: bool)

  /** `if layout_override:` — a missing or empty override means "probe the candidates". */
  predicate HasOverride(layoutOverride: Option<string>)
  {
    layoutOverride.Some? && layoutOverride.value != ""
  }

  /** No layout can be chosen: the override is missing from disk, or, without one, every candidate is. */
  predicate LayoutMissing(layoutOverride: Option<string>, existing: set<string>)
  {
    if HasOverride(layoutOverride) then layoutOverride.value !in existing
    else forall i :: 0 <= i < |LayoutCandidates| ==> LayoutCandidates[i] !in existing
  }

  /** `path` is the override when one is given, otherwise the first existing candidate. */
  predicate IsChosenLayout(layoutOverride: Option<string>, existing: set<string>, path: string)
  {
    path in existing &&
    if HasOverride(layoutOverride) then path == layoutOverride.value
    else
      exists i :: 0 <= i < |LayoutCandidates| && LayoutCandidates[i] == path &&
        forall j :: 0 <= j < i ==> LayoutCandidates[j] !in existing
  }

  /** `_pick_layout`. */
  method PickLayout(layoutOverride: Option<string>, existing: set<string>) returns (r: Result<string, LoadError>)
    ensures r.Err? <==> LayoutMissing(layoutOverride, existing)
    ensures r.Ok? ==> IsChosenLayout(layoutOverride, existing, r.value)
    ensures r.Err? ==> r.error == if HasOverride(layoutOverride) then LayoutNotFound(layoutOverride.value) else NoLayoutFound
  {
    if HasOverride(layoutOverride) {
      if layoutOverride.value !in existing {
        return Err(LayoutNotFound(layoutOverride.value));
      }
      return Ok(layoutOverride.value);
    }
    for i := 0 to |LayoutCandidates|
      invariant forall j :: 0 <= j < i ==> LayoutCandidates[j] !in existing
    {
      if LayoutCandidates[i] in existing {
        return Ok(LayoutCandidates[i]);
      }
    }
    return Err(NoLayoutFound);
  }

  /**
   * `load_data`'s choices: the placements file must exist, then a layout is
   * picked, and the inventory is read only when it exists and parses
   * (`inventoryParses` stands for `pd.read_csv` succeeding).
   */
  method LoadData(layoutOverride: Option<string>, existing: set<string>, inventoryParses: bool)
    returns (r: Result<Sources, LoadError>)
    ensures PlacementsFile !in existing ==> r == Err(PlacementsNotFound)
    ensures PlacementsFile in existing ==> (r.Err? <==> LayoutMissing(layoutOverride, existing))
    ensures r.Ok? ==> IsChosenLayout(layoutOverride, existing, r.value.layoutPath)
    ensures r.Ok? ==> (r.value.readInventory <==> InventoryFile in existing && inventoryParses)
  {
    if PlacementsFile !in existing {
      return Err(PlacementsNotFound);
    }
    var layout := PickLayout(layoutOverride, existing);
    if layout.Err? {
      return Err(layout.error);
    }
    var readInventory := false;
    if InventoryFile in existing {
      if inventoryParses {
        readInventory := true;
      }
    }
    return Ok(Sources(layout.value, readInventory));
  }
}
