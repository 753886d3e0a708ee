/**
 * The `MenuGenerator` component: its state (restaurant name, the three item lists,
 * the downloading flag and the wrapper element the preview is mounted in) and the
 * handlers that change it.
 */
module Generator {
  import opened Wrappers
  import opened MenuItems
  import opened MenuPreview
  import opened DownloadName

  /** The wrapper element `menuRef.current`: only its inline `style.transform` is modelled. */
  class Wrapper {
    var transform: string

    constructor (transform: string)
      ensures this.transform == transform
    {
      this.transform := transform;
    }
  }

  /** The scale the preview is shown at in the editor. */
  const PreviewTransform := "scale(0.55)"

  /**
   * How the asynchronous part of a download ends: the rasteriser throws, the
   * rasteriser succeeds but encoding or clicking the link throws, or all succeed.
   */
  datatype Capture = CaptureFails | EncodeFails | Succeeds

  const DefaultSoups := [
    Item("Шкембе", "3.91", "2"),
    Item("Пилешка", "3.91", "2"),
    Item("Картофена", "3.91", "2")
  ]

  const DefaultDishes := [
    Item("Мусака", "5.87", "3"),
    Item("Пилешко бутче с ориз", "6.84", "3.5"),
    Item("Риба „Хек\" с ориз", "7.82", "4"),
    Item("Зеле със свинско на фурна", "6.84", "3.5")
  ]

  const DefaultDesserts := [Item("Торта", "3.91", "2")]

  class MenuGenerator {
    var name: string
    var soups: seq<Item>
    var dishes: seq<Item>
    var desserts: seq<Item>
    var isDownloading: bool
    var menuRef: Wrapper?

    /** The state on first render; the wrapper is not mounted yet. */
    constructor ()
      ensures name == "Бистро Бени"
      ensures soups == DefaultSoups && dishes == DefaultDishes && desserts == DefaultDesserts
      ensures !isDownloading && menuRef == null
    {
      name := "Бистро Бени";
      soups, dishes, desserts := DefaultSoups, DefaultDishes, DefaultDesserts;
      isDownloading := false;
      menuRef := null;
    }

    /** The three lists as the preview receives them. */
    function Lists(): (r: Menu)
      reads this
      ensures r.Items(Soups) == soups && r.Items(Dishes) == dishes && r.Items(Desserts) == desserts
    {
      Menu(soups, dishes, desserts)
    }

    /** The page the preview currently shows. */
    function Page(): (r: seq<RenderedSection>)
      reads this
      ensures |r| <= 3
      ensures r == [] <==> Visible(soups) == [] && Visible(dishes) == [] && Visible(desserts) == []
    {
      Render(Lists())
    }

    /** React attaches the wrapper element, styled with the preview scale. */
    method Mount()
      modifies this
      ensures fresh(menuRef) && menuRef.transform == PreviewTransform
      ensures name == old(name) && Lists() == old(Lists()) && isDownloading == old(isDownloading)
    {
      menuRef := new Wrapper(PreviewTransform);
    }

    /** The `onChange` of the restaurant-name input. */
    method SetName(v: string)
      modifies this
      ensures name == v
      ensures Lists() == old(Lists()) && isDownloading == old(isDownloading) && menuRef == old(menuRef)
    {
      name := v;
    }

    method SetItems(s: Section, items: seq<Item>)
      modifies this
      ensures Lists() == old(Lists()).With(s, items)
      ensures name == old(name) && isDownloading == old(isDownloading) && menuRef == old(menuRef)
    {
      match s
      case Soups => soups := items;
      case Dishes => dishes := items;
      case Desserts => desserts := items;
    }

    /** The `onChange` of input `f` in row `idx` of the editor of section `s`. */
    method EditItem(s: Section, idx: nat, f: Field, v: string)
      requires idx < |Lists().Items(s)|
      modifies this
      ensures Lists() == old(Lists()).With(s, SetField(old(Lists()).Items(s), idx, f, v))
      ensures name == old(name) && isDownloading == old(isDownloading) && menuRef == old(menuRef)
    {
      var updated := EditCopy(Lists().Items(s), idx, f, v);
      SetItems(s, updated);
    }

    /** The remove button of row `idx` of the editor of section `s`. */
    method RemoveItem(s: Section, idx: nat)
      modifies this
      ensures Lists() == old(Lists()).With(s, RemoveAt(old(Lists()).Items(s), idx))
      ensures name == old(name) && isDownloading == old(isDownloading) && menuRef == old(menuRef)
    {
      SetItems(s, RemoveAt(Lists().Items(s), idx));
    }

    /** The "+ Добави" button of the editor of section `s`. */
    method AddItem(s: Section)
      modifies this
      ensures Lists() == old(Lists()).With(s, AppendBlank(old(Lists()).Items(s)))
      ensures Page() == old(Page())
      ensures name == old(name) && isDownloading == old(isDownloading) && menuRef == old(menuRef)
    {
      AppendBlankKeepsRender(Lists(), s);
      SetItems(s, AppendBlank(Lists().Items(s)));
    }

    /**
     * `handleDownload` as written: the transform is cleared for the capture and put
     * back only once the capture has returned, so a throwing rasteriser leaves the
     * preview unscaled. The download is the file name of the link that is clicked;
     * `alerted` is the error message shown to the user.
     */
    method HandleDownload(capture: Capture) returns (download: Option<string>, alerted: bool)
      modifies this, menuRef
      ensures menuRef == old(menuRef) && name == old(name) && Lists() == old(Lists())
      ensures old(menuRef) == null ==> isDownloading == old(isDownloading) && download == None && !alerted
      ensures old(menuRef) != null ==> !isDownloading
      ensures old(menuRef) != null ==>
        menuRef.transform == if capture == CaptureFails then "none" else old(menuRef.transform)
      ensures old(menuRef) != null ==>
        download == (if capture == Succeeds then Some(Filename(name)) else None) &&
        alerted == (capture != Succeeds)
    {
      download, alerted := None, false;
      if menuRef == null {
        return;
      }
      isDownloading := true;
      var originalTransform := menuRef.transform;
      menuRef.transform := "none";
      if capture != CaptureFails {
        menuRef.transform := originalTransform;
        if capture == Succeeds {
          download := Some(Filename(name));
        }
      }
      if capture != Succeeds {
        alerted := true;
      }
      isDownloading := false;
    }

    /** `handleDownload` with the transform restored in the `finally` block, on every path. */
    method HandleDownloadRestoring(capture: Capture) returns (download: Option<string>, alerted: bool)
      modifies this, menuRef
      ensures menuRef == old(menuRef) && name == old(name) && Lists() == old(Lists())
      ensures old(menuRef) == null ==> isDownloading == old(isDownloading) && download == None && !alerted
      ensures old(menuRef) != null ==> !isDownloading && menuRef.transform == old(menuRef.transform)
      ensures old(menuRef) != null ==>
        download == (if capture == Succeeds then Some(Filename(name)) else None) &&
        alerted == (capture != Succeeds)
    {
      download, alerted := None, false;
      if menuRef == null {
        return;
      }
      isDownloading := true;
      var originalTransform := menuRef.transform;
      menuRef.transform := "none";
      if capture == Succeeds {
        download := Some(Filename(name));
      } else {
        alerted := true;
      }
      menuRef.transform := originalTransform;
      isDownloading := false;
    }
  }

  /** A failed capture on the mounted preview leaves it at "none" instead of its scale. */
  method FailedCaptureLeavesPreviewUnscaled() returns (before: string, after: string)
    ensures before == PreviewTransform && after == "none" && before != after
  {
    var g := new MenuGenerator();
    g.Mount();
    before := g.menuRef.transform;
    var download, alerted := g.HandleDownload(CaptureFails);
    after := g.menuRef.transform;
  }

  /** With the restore moved to `finally`, a failed capture gives the preview its scale back. */
  method FailedCaptureRestoresPreview() returns (before: string, after: string)
    ensures before == PreviewTransform && after == before
  {
    var g := new MenuGenerator();
    g.Mount();
    before := g.menuRef.transform;
    var download, alerted := g.HandleDownloadRestoring(CaptureFails);
    after := g.menuRef.transform;
  }

  /** Downloading the menu as first shown names the file after the default restaurant name. */
  method DefaultDownload() returns (download: Option<string>)
    ensures download == Some("menu-бистро-бени.png")
  {
    var g := new MenuGenerator();
    g.Mount();
    DefaultFilename();
    var alerted;
    download, alerted := g.HandleDownload(Succeeds);
  }
}
