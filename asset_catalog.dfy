/**
 * The asset browser's catalog filter: the settings the file list filters
 * by, the predicate that decides whether an asset is shown, and the tree
 * view rows (All, one per catalog, Unassigned) that set them and accept
 * dragged assets.
 */
module AssetCatalog {
  import opened Wrappers

  /** A catalog UUID; `Nil` is the all-zero UUID. */
  type CatalogId = nat
  const Nil: CatalogId := 0

  /** eFileSel_Params_AssetCatalogVisibility */
  datatype Visibility = AllCatalogs | FromCatalog | WithoutCatalog

  /** AssetMetaData, the catalog fields a drop writes. */
  class AssetData {
    var catalogId: CatalogId
    var catalogSimpleName: string

    constructor (id: CatalogId, name: string)
      ensures catalogId == id && catalogSimpleName == name
    {
      catalogId := id;
      catalogSimpleName := name;
    }
  }

  /** AssetCatalogFilterSettings. `catalogFilter` is the set of catalogs the
      filter accepts, None while no filter has been built. */
  class FilterSettings {
    var visibility: Visibility
    var catalogId: CatalogId
    var catalogFilter: Option<set<CatalogId>>

    /** file_create_asset_catalog_filter_settings: value-initialised, so the
        first enumerator, a nil id and no filter. */
    constructor ()
      ensures visibility == AllCatalogs && catalogId == Nil && catalogFilter == None
    {
      visibility := AllCatalogs;
      catalogId := Nil;
      catalogFilter := None;
    }

    /** The settings already filter by this visibility and, for a single
        catalog, by this catalog. */
    predicate Matches(vis: Visibility, id: CatalogId)
      reads this
    {
      visibility == vis && (vis == FromCatalog ==> catalogId == id)
    }

    /** file_set_asset_catalog_filter_settings: reports whether the file
        list has to filter again. */
    method Set(vis: Visibility, id: CatalogId) returns (needsUpdate: bool)
      modifies this`visibility, this`catalogId
      ensures needsUpdate <==> !old(Matches(vis, id))
      ensures Matches(vis, id)
      ensures vis != FromCatalog ==> catalogId == old(catalogId)
    {
      needsUpdate := false;
      if visibility != vis {
        visibility := vis;
        needsUpdate := true;
      }
      if visibility == FromCatalog && catalogId != id {
        catalogId := id;
        needsUpdate := true;
      }
    }

    /** file_ensure_updated_catalog_filter_data: `createFilter` stands for
        the catalog service, which builds the filter of a catalog. */
    method EnsureUpdated(createFilter: CatalogId -> set<CatalogId>)
      modifies this`catalogFilter
      ensures visibility == FromCatalog ==> catalogFilter == Some(createFilter(catalogId))
      ensures visibility != FromCatalog ==> catalogFilter == old(catalogFilter)
    {
      if visibility == FromCatalog {
        catalogFilter := Some(createFilter(catalogId));
      }
    }

    /** file_is_asset_visible_in_catalog_filter_settings; filtering by a
        catalog needs the filter to have been built. */
    predicate IsVisible(assetCatalogId: CatalogId)
      reads this
      requires visibility == FromCatalog ==> catalogFilter.Some?
    {
      match visibility
      case WithoutCatalog => assetCatalogId == Nil
      case FromCatalog => assetCatalogId in catalogFilter.value
      case AllCatalogs => true
    }
  }

  /** Setting the same filter twice: the second call reports nothing to do. */
  method SetTwice(s: FilterSettings, vis: Visibility, id: CatalogId) returns (first: bool, second: bool)
    modifies s
    ensures !second
    ensures first <==> !old(s.Matches(vis, id))
  {
    first := s.Set(vis, id);
    second := s.Set(vis, id);
  }

  /** FileAssetSelectParams, the fields the tree view reads and writes. */
  class SelectParams {
    var visibility: Visibility
    var catalogId: CatalogId

    constructor (vis: Visibility, id: CatalogId)
      ensures visibility == vis && catalogId == id
    {
      visibility := vis;
      catalogId := id;
    }
  }

  /** The rows of the catalog tree view. */
  datatype TreeItem = AllItem | CatalogItem(id: CatalogId, simpleName: string) | UnassignedItem

  /** Two rows that stand for the same filter: catalog rows by their id. */
  predicate SameRow(a: TreeItem, b: TreeItem)
  {
    match a
    case AllItem => b.AllItem?
    case UnassignedItem => b.UnassignedItem?
    case CatalogItem(id, _) => b.CatalogItem? && b.id == id
  }

  datatype DragType = AssetListDrag | OtherDrag

  /** wmDragAssetListItem: whether the asset lives in another file, and its
      metadata. */
  datatype DragItem = DragItem(isExternal: bool, asset: AssetData)

  datatype Drag = Drag(kind: DragType, items: seq<DragItem>)

  /** WM_drag_asset_list_get (not part of this model): the asset list of an
      asset-list drag, none for any other drag. */
  function AssetList(drag: Drag): Option<seq<DragItem>>
  {
    if drag.kind == AssetListDrag then Some(drag.items) else None
  }

  /** The assets a drop can change: those of the current file. */
  function InternalAssets(items: seq<DragItem>): set<AssetData>
  {
    set i | 0 <= i < |items| && !items[i].isExternal :: items[i].asset
  }

  /** AssetCatalogTreeView over the params it filters by. */
  class TreeView {
    var params: SelectParams

    constructor (p: SelectParams)
      ensures params == p
    {
      params := p;
    }

    /** AssetCatalogTreeView::is_active_catalog */
    predicate IsActiveCatalog(id: CatalogId)
      reads this, params
    {
      params.visibility == FromCatalog && params.catalogId == id
    }

    /** The is_active callback each row is built with. */
    predicate IsActive(item: TreeItem)
      reads this, params
    {
      match item
      case AllItem => params.visibility == AllCatalogs
      case UnassignedItem => params.visibility == WithoutCatalog
      case CatalogItem(id, _) => IsActiveCatalog(id)
    }

    /** The on_activate of each row: it becomes the active row, and every
        row standing for another filter stops being active. The All and
        Unassigned rows leave the stored catalog id alone. */
    method OnActivate(item: TreeItem)
      modifies params
      ensures IsActive(item)
      ensures forall other :: IsActive(other) <==> SameRow(other, item)
      ensures !item.CatalogItem? ==> params.catalogId == old(params.catalogId)
    {
      match item
      case AllItem =>
        params.visibility := AllCatalogs;
      case UnassignedItem =>
        params.visibility := WithoutCatalog;
      case CatalogItem(id, _) =>
        params.visibility := FromCatalog;
        params.catalogId := id;
    }
  }

  /** AssetCatalogTreeViewItem::has_droppable_item: some dragged asset is
      from the current file. */
  method HasDroppableItem(drag: Drag) returns (r: bool)
    requires AssetList(drag).Some?
    ensures r <==> exists i :: 0 <= i < |drag.items| && !drag.items[i].isExternal
  {
    var items := AssetList(drag).value;
    var i := 0;
    while i < |items|
      invariant 0 <= i <= |items|
      invariant forall j :: 0 <= j < i ==> items[j].isExternal
    {
      if !items[i].isExternal {
        return true;
      }
      i := i + 1;
    }
    return false;
  }

  /** can_drop of a catalog row and of the Unassigned row. */
  method CanDrop(drag: Drag) returns (r: bool)
    ensures r <==> drag.kind == AssetListDrag &&
                   exists i :: 0 <= i < |drag.items| && !drag.items[i].isExternal
  {
    if drag.kind != AssetListDrag {
      return false;
    }
    r := HasDroppableItem(drag);
  }

  /** AssetCatalogTreeViewItem::drop_into_catalog: every asset of the
      current file is moved into the catalog; assets of other files are
      left alone. */
  method DropIntoCatalog(drag: Drag, id: CatalogId, simpleName: string) returns (r: bool)
    modifies InternalAssets(drag.items)
    ensures r <==> AssetList(drag).Some?
    ensures r ==> forall a :: a in InternalAssets(drag.items) ==>
      a.catalogId == id && a.catalogSimpleName == simpleName
    ensures !r ==> forall a :: a in InternalAssets(drag.items) ==> unchanged(a)
  {
    var list := AssetList(drag);
    if list.None? {
      return false;
    }
    var items := list.value;
    var i := 0;
    while i < |items|
      invariant 0 <= i <= |items|
      invariant forall j :: 0 <= j < i && !items[j].isExternal ==>
        items[j].asset.catalogId == id && items[j].asset.catalogSimpleName == simpleName
    {
      if !items[i].isExternal {
        items[i].asset.catalogId := id;
        items[i].asset.catalogSimpleName := simpleName;
      }
      i := i + 1;
    }
    return true;
  }

  /** on_drop of a catalog row and of the Unassigned row: the Unassigned row
      moves assets to the nil catalog. */
  method OnDrop(item: TreeItem, drag: Drag) returns (r: bool)
    requires !item.AllItem?
    modifies InternalAssets(drag.items)
    ensures r <==> drag.kind == AssetListDrag
    ensures r ==> forall a :: a in InternalAssets(drag.items) ==>
      a.catalogId == (if item.CatalogItem? then item.id else Nil)
  {
    if item.CatalogItem? {
      r := DropIntoCatalog(drag, item.id, item.simpleName);
    } else {
      r := DropIntoCatalog(drag, Nil, "");
    }
  }

  /** Activating a row and dropping assets onto it: the file list, once it
      has rebuilt its filter, shows every asset dropped from the current
      file, provided a catalog's filter takes in the catalog itself. */
  method DropOntoActiveRow(view: TreeView, settings: FilterSettings, item: TreeItem, drag: Drag,
                           createFilter: CatalogId -> set<CatalogId>)
    returns (dropped: bool)
    requires !item.AllItem?
    requires forall c :: c in createFilter(c)
    modifies view.params, settings, InternalAssets(drag.items)
    ensures dropped <==> drag.kind == AssetListDrag
    ensures settings.visibility == FromCatalog ==> settings.catalogFilter.Some?
    ensures dropped ==> forall a :: a in InternalAssets(drag.items) ==> settings.IsVisible(a.catalogId)
  {
    view.OnActivate(item);
    var _ := settings.Set(view.params.visibility, view.params.catalogId);
    settings.EnsureUpdated(createFilter);
    dropped := OnDrop(item, drag);
  }
}
