/** One category of the board: `AACCategory`, a name and its image -> spoken-text items. */
module Categories {
  import opened Wrappers
  import opened AssociativeArray

  /** The value a category holds: its display name and its items, in insertion order. */
  datatype CategoryRecord = CategoryRecord(name: string, items: Entries<string>)

  /** `NoSuchElementException`, by the subject of its message. */
  datatype NoSuchElement = CategoryNotFound(loc: string) | ImageNotFound(loc: string)

  class AACCategory {
    /** Set by the constructor and never assigned again. */
    const categoryName: string
    /** Image location -> text to speak. */
    var items: Entries<string>

    ghost predicate Valid()
      reads this
    {
      DistinctKeys(items)
    }

    ghost function Record(): CategoryRecord
      reads this
    {
      CategoryRecord(categoryName, items)
    }

    /** A new category with the given name and no images. */
    constructor (name: string)
      ensures Valid() && categoryName == name && items == []
      ensures GetImageLocs() == [] && forall loc :: !HasImage(loc)
    {
      categoryName := name;
      items := [];
    }

    /**
     * `addItem`: adds or overwrites the text for `imageLoc`. A null location
     * (`None`) makes the array throw `NullKeyException`, which is only logged,
     * so the items stay as they were.
     */
    method AddItem(imageLoc: Option<string>, text: string)
      requires Valid()
      modifies this
      ensures Valid()
      ensures items == if imageLoc.None? then old(items) else Set(old(items), imageLoc.value, text)
      ensures imageLoc.Some? ==> HasImage(imageLoc.value) && Select(imageLoc.value) == Ok(text)
      ensures forall loc :: imageLoc != Some(loc) ==> Select(loc) == old(Select(loc))
      ensures imageLoc.Some? && imageLoc.value in old(GetImageLocs()) ==> GetImageLocs() == old(GetImageLocs())
      ensures imageLoc.Some? && imageLoc.value !in old(GetImageLocs()) ==> GetImageLocs() == old(GetImageLocs()) + [imageLoc.value]
    {
      if imageLoc.Some? {
        ghost var before := items;
        items := Set(items, imageLoc.value, text);
        SetDistinct(before, imageLoc.value, text);
        SetKeys(before, imageLoc.value, text);
        GetSetSame(before, imageLoc.value, text);
        forall loc | loc != imageLoc.value
          ensures Get(items, loc) == Get(before, loc)
        {
          GetSetOther(before, imageLoc.value, loc, text);
        }
      }
    }

    /** `getImageLocs`: exactly the locations `hasImage` accepts, once each, in insertion order. */
    function GetImageLocs(): (r: seq<string>)
      reads this
      requires Valid()
      ensures |r| == |items| && forall i :: 0 <= i < |r| ==> r[i] == items[i].0
      ensures forall loc :: loc in r <==> HasImage(loc)
      ensures forall i, j :: 0 <= i < j < |r| ==> r[i] != r[j]
    {
      Keys(items)
    }

    /** `getCategory`: the name given at construction. */
    function GetCategory(): (r: string)
      ensures r == categoryName
    {
      categoryName
    }

    /** `getCurrentCategory`: the same name as `getCategory`. */
    function GetCurrentCategory(): (r: string)
      ensures r == categoryName
    {
      GetCategory()
    }

    /**
     * `select`: the text stored for `imageLoc`; `NoSuchElementException`
     * ("Image not found") when the category has no such image.
     */
    function Select(imageLoc: string): (r: Result<string, NoSuchElement>)
      reads this
      ensures r.Ok? <==> HasImage(imageLoc)
      ensures r.Ok? ==> (imageLoc, r.value) in items
      ensures r.Err? ==> r.error == ImageNotFound(imageLoc)
    {
      match Get(items, imageLoc)
      case None => Err(ImageNotFound(imageLoc))
      case Some(text) => Ok(text)
    }

    /** `hasImage`: whether some item is stored under `imageLoc`. */
    function HasImage(imageLoc: string): (r: bool)
      reads this
      ensures r <==> exists i :: 0 <= i < |items| && items[i].0 == imageLoc
    {
      HasKey(items, imageLoc)
    }
  }
}
