/**
 * The public photo gallery page: category filter buttons, the image grid and
 * the lightbox modal with next/previous/keyboard navigation.
 */
module Gallery {
  import opened Wrappers
  import opened I18n
  import Circular

  /** A gallery category as the categories endpoint returns it; a missing
      title is the empty string (both are falsy). */
  datatype Category = Category(key: string, title: string)

  /** A filter button's data: the category key and its display label. */
  datatype DisplayCategory = DisplayCategory(id: string, name: string)

  /** An image row as the images endpoint returns it. */
  datatype Image = Image(id: int, src: string, title: string, categoryKey: string)

  /** The exception that escapes when the translation function throws. */
  datatype Error = TranslateThrew(key: string)

  /** One rendered filter button: its key, its text and whether it has the "active" class. */
  datatype FilterButton = FilterButton(id: string, caption: string, active: bool)

  /** The category key meaning "no filter"; also the initial filter. */
  const AllKey: string := "all"

  /** safeTranslate: the translation of `key` when it is a non-empty string
      other than the key itself, else `fallback`. This page has no try/catch,
      so an exception thrown by `t` propagates. */
  function SafeTranslate(t: string -> Reply, key: string, fallback: string): (r: Result<string, Error>)
    ensures t(key).Threw? <==> r == Failure(TranslateThrew(key))
    ensures Usable(t(key), key) ==> r == Success(t(key).text)
    ensures !t(key).Threw? && !Usable(t(key), key) ==> r == Success(fallback)
  {
    match t(key)
    case Threw => Failure(TranslateThrew(key))
    case Missing => Success(fallback)
    case Text(s) => Success(if s != "" && s != key then s else fallback)
  }

  /** The label of one category: its translation, else its title, else its raw key. */
  function CategoryLabel(t: string -> Reply, c: Category): (r: Result<string, Error>)
    ensures t(c.key).Threw? ==> r.Failure?
    ensures Usable(t(c.key), c.key) ==> r == Success(t(c.key).text)
    ensures !t(c.key).Threw? && !Usable(t(c.key), c.key) && c.title != "" ==> r == Success(c.title)
    ensures !t(c.key).Threw? && !Usable(t(c.key), c.key) && c.title == "" ==> r == Success(c.key)
  {
    SafeTranslate(t, c.key, if c.title != "" then c.title else c.key)
  }

  /** displayCategories: one entry per category, in the same order, with the
      category key as id; it fails when any lookup throws. */
  function DisplayCategories(t: string -> Reply, cats: seq<Category>): (r: Result<seq<DisplayCategory>, Error>)
    ensures r.Success? <==> forall i | 0 <= i < |cats| :: !t(cats[i].key).Threw?
    ensures r.Success? ==> |r.value| == |cats|
    ensures r.Success? ==> forall i | 0 <= i < |cats| ::
      r.value[i].id == cats[i].key && CategoryLabel(t, cats[i]) == Success(r.value[i].name)
    decreases |cats|
  {
    if cats == [] then Success([])
    else
      match CategoryLabel(t, cats[0])
      case Failure(e) => Failure(e)
      case Success(name) =>
        match DisplayCategories(t, cats[1..])
        case Failure(e) => Failure(e)
        case Success(rest) => Success([DisplayCategory(cats[0].key, name)] + rest)
  }

  /** The filter bar: the "all" button shows `allPhotos` (the text of
      t("allPhotos")), every other button its category label; a button is
      active when its key is the current filter. */
  function FilterButtons(cats: seq<DisplayCategory>, filter: string, allPhotos: string): (r: seq<FilterButton>)
    ensures |r| == |cats|
    ensures forall i | 0 <= i < |cats| :: r[i].id == cats[i].id
    ensures forall i | 0 <= i < |cats| :: r[i].active <==> cats[i].id == filter
    ensures forall i | 0 <= i < |cats| :: r[i].caption == if cats[i].id == AllKey then allPhotos else cats[i].name
  {
    seq(|cats|, i requires 0 <= i < |cats| =>
      FilterButton(cats[i].id, if cats[i].id == AllKey then allPhotos else cats[i].name, cats[i].id == filter))
  }

  /** Category keys are distinct. */
  ghost predicate UniqueKeys(cats: seq<DisplayCategory>)
  {
    forall j, k | 0 <= j < |cats| && 0 <= k < |cats| && cats[j].id == cats[k].id :: j == k
  }

  /** With distinct keys, clicking button i makes it the one and only active button. */
  lemma ClickedButtonOnlyActive(cats: seq<DisplayCategory>, i: int, allPhotos: string)
    requires UniqueKeys(cats) && 0 <= i < |cats|
    ensures var buttons := FilterButtons(cats, cats[i].id, allPhotos);
      buttons[i].active && forall j | 0 <= j < |cats| && j != i :: !buttons[j].active
  {
  }

  /** Array.prototype.findIndex on `id`: the first position holding that id,
      or -1 when there is none. */
  function FindIndex(images: seq<Image>, id: int): (r: int)
    ensures -1 <= r < |images|
    ensures r == -1 <==> forall k | 0 <= k < |images| :: images[k].id != id
    ensures r >= 0 ==> images[r].id == id
    ensures r >= 0 ==> forall k | 0 <= k < r :: images[k].id != id
    decreases |images|
  {
    if images == [] then -1
    else if images[0].id == id then 0
    else
      var r := FindIndex(images[1..], id);
      if r == -1 then -1 else r + 1
  }

  /** Image ids are distinct. */
  ghost predicate UniqueIds(images: seq<Image>)
  {
    forall j, k | 0 <= j < |images| && 0 <= k < |images| && images[j].id == images[k].id :: j == k
  }

  /** With distinct ids, the index findIndex gives for a listed image holds that image. */
  lemma FindIndexLocates(images: seq<Image>, image: Image)
    requires UniqueIds(images) && image in images
    ensures 0 <= FindIndex(images, image.id) < |images|
    ensures images[FindIndex(images, image.id)] == image
  {
    var k :| 0 <= k < |images| && images[k] == image;
    var r := FindIndex(images, image.id);
    assert images[r].id == images[k].id;
  }

  /** The guard of the modal's previous/next buttons: more than one image listed. */
  predicate NavShown(images: seq<Image>)
  {
    |images| > 1
  }

  /** The previous/next buttons are rendered exactly when a step would move
      to another image. */
  lemma NavShownIffStepMoves(images: seq<Image>, i: int)
    requires 0 <= i < |images|
    ensures NavShown(images) <==> Circular.Next(i, |images|) != i
    ensures NavShown(images) <==> Circular.Prev(i, |images|) != i
  {
    if |images| > 1 {
      Circular.StepsMove(i, |images|);
    } else {
      Circular.SingleElementFixed();
    }
  }

  /** The page's state: categories, filter, shown images and the lightbox. */
  class GalleryPage {
    var categories: seq<Category>
    var filter: string
    var images: seq<Image>
    var selected: Option<Image>
    var index: int

    /** Kept by every handler: findIndex never yields less than -1. */
    ghost predicate Valid()
      reads this
    {
      index >= -1
    }

    /** The lightbox invariant: while an image is shown, index points at it. */
    ghost predicate LightboxConsistent()
      reads this
    {
      selected.Some? ==> 0 <= index < |images| && images[index] == selected.value
    }

    /** The initial state: nothing loaded, filter "all", lightbox closed. */
    constructor ()
      ensures Valid() && LightboxConsistent()
      ensures categories == [] && filter == AllKey && images == []
      ensures selected == None && index == 0
    {
      categories := [];
      filter := AllKey;
      images := [];
      selected := None;
      index := 0;
    }

    /** The category fetch completed with `cats`. */
    method CategoriesLoaded(cats: seq<Category>)
      modifies this`categories
      ensures categories == cats
    {
      categories := cats;
    }

    /** A filter button was clicked; the image fetch it starts completes later
        as an ImagesLoaded event. */
    method SelectFilter(key: string)
      modifies this`filter
      ensures filter == key
    {
      filter := key;
    }

    /** An image fetch completed with `rows`: the list is replaced wholesale and
        the lightbox reset, whatever its state was. */
    method ImagesLoaded(rows: seq<Image>)
      modifies this`images, this`selected, this`index
      ensures images == rows && selected == None && index == 0
      ensures Valid() && LightboxConsistent()
    {
      images := rows;
      selected := None;
      index := 0;
    }

    /** handleImageClick: open the lightbox on `image`, at the first position
        holding its id. */
    method ClickImage(image: Image)
      modifies this`selected, this`index
      ensures index == FindIndex(images, image.id) && selected == Some(image)
      ensures Valid()
      ensures image in images && UniqueIds(images) ==> LightboxConsistent()
    {
      index := FindIndex(images, image.id);
      selected := Some(image);
      if image in images && UniqueIds(images) {
        FindIndexLocates(images, image);
      }
    }

    /** handleNextImage: step right with wrap-around; nothing on an empty list. */
    method NextImage()
      requires Valid()
      modifies this`selected, this`index
      ensures Valid()
      ensures |images| == 0 ==> selected == old(selected) && index == old(index)
      ensures |images| > 0 ==> index == Circular.Next(old(index), |images|)
      ensures |images| > 0 ==> selected == Some(images[index]) && LightboxConsistent()
      ensures old(LightboxConsistent()) ==> LightboxConsistent()
    {
      if |images| == 0 {
        return;
      }
      var next := Circular.Next(index, |images|);
      index := next;
      selected := Some(images[next]);
    }

    /** handlePrevImage: step left with wrap-around; nothing on an empty list. */
    method PrevImage()
      requires Valid()
      modifies this`selected, this`index
      ensures Valid()
      ensures |images| == 0 ==> selected == old(selected) && index == old(index)
      ensures |images| > 0 ==> index == Circular.Prev(old(index), |images|)
      ensures |images| > 0 ==> selected == Some(images[index]) && LightboxConsistent()
      ensures old(LightboxConsistent()) ==> LightboxConsistent()
    {
      if |images| == 0 {
        return;
      }
      var prev := Circular.Prev(index, |images|);
      index := prev;
      selected := Some(images[prev]);
    }

    /** The keydown listener: ignored while the lightbox is closed; ArrowRight
        steps right, ArrowLeft steps left, Escape closes. */
    method KeyDown(key: string)
      requires Valid()
      modifies this`selected, this`index
      ensures Valid()
      ensures old(selected).None? ==> selected == old(selected) && index == old(index)
      ensures old(selected).Some? && key == "ArrowRight" && |images| > 0 ==>
        index == Circular.Next(old(index), |images|) && selected == Some(images[index])
      ensures old(selected).Some? && key == "ArrowLeft" && |images| > 0 ==>
        index == Circular.Prev(old(index), |images|) && selected == Some(images[index])
      ensures old(selected).Some? && key == "Escape" ==> selected == None && index == old(index)
      ensures key != "ArrowRight" && key != "ArrowLeft" && key != "Escape" ==>
        selected == old(selected) && index == old(index)
      ensures |images| == 0 && key != "Escape" ==> selected == old(selected) && index == old(index)
      ensures old(LightboxConsistent()) ==> LightboxConsistent()
    {
      if selected.None? {
        return;
      }
      if key == "ArrowRight" {
        NextImage();
      }
      if key == "ArrowLeft" {
        PrevImage();
      }
      if key == "Escape" {
        selected := None;
      }
    }

    /** The modal's onHide (close button or backdrop): clear the selection. */
    method HideModal()
      modifies this`selected
      ensures selected == None && LightboxConsistent()
    {
      selected := None;
    }
  }

  /** A category holding one image: clicking it opens the lightbox at index 0,
      and ArrowRight leaves it there on the same image. */
  method SingleImageScenario(image: Image) returns (index: int, shown: Option<Image>)
    ensures index == 0 && shown == Some(image)
  {
    var page := new GalleryPage();
    page.SelectFilter(image.categoryKey);
    page.ImagesLoaded([image]);
    page.ClickImage(image);
    page.KeyDown("ArrowRight");
    Circular.SingleElementFixed();
    index, shown := page.index, page.selected;
  }
}
