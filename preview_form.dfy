/**
 * PreviewForm's navigation: which image is current, its index in the shared
 * image list, moving to another image, and choosing the next image (or
 * closing) after a delete. Painting, zooming, toolbars and asynchronous
 * rendering are not modelled; the delete confirmation is an input.
 */
module Preview {
  import opened Wrappers

  /** A UI image; identity is what IndexOf compares. */
  datatype UiImage = UiImage(id: nat)

  datatype PreviewError = NoCurrentImage   // InvalidOperationException from the CurrentImage getter

  /** List.IndexOf: the first position of `x`, or -1. */
  function IndexOf(s: seq<UiImage>, x: UiImage): (r: int)
    ensures -1 <= r < |s|
    ensures r == -1 <==> x !in s
    ensures r >= 0 ==> s[r] == x && forall j :: 0 <= j < r ==> s[j] != x
    decreases |s|
  {
    if |s| == 0 then -1
    else if s[0] == x then 0
    else
      var k := IndexOf(s[1..], x);
      if k == -1 then -1 else k + 1
  }

  /** Every occurrence of `x` removed, the rest in order. */
  function Without(s: seq<UiImage>, x: UiImage): (r: seq<UiImage>)
    ensures x !in r
    ensures forall y :: y in r <==> y in s && y != x
    ensures |r| <= |s|
    decreases |s|
  {
    if |s| == 0 then []
    else if s[0] == x then Without(s[1..], x)
    else [s[0]] + Without(s[1..], x)
  }

  /** No image appears twice in the list. */
  predicate Distinct(s: seq<UiImage>)
  {
    forall a, b :: 0 <= a < b < |s| ==> s[a] != s[b]
  }

  /** The index shown after a delete: the old index while it is still in range, otherwise the last image. */
  function NextIndexAfterDelete(lastIndex: nat, count: nat): (r: nat)
    requires count > 0
    ensures r < count
    ensures lastIndex < count ==> r == lastIndex
    ensures lastIndex >= count ==> r == count - 1
  {
    if lastIndex >= count then count - 1 else lastIndex
  }

  /** UiImageList: the images and the current selection, shared with the main window. */
  class UiImageList {
    var images: seq<UiImage>
    var selection: set<UiImage>

    constructor (images: seq<UiImage>)
      ensures this.images == images && selection == {}
    {
      this.images := images;
      selection := {};
    }

    method UpdateSelection(s: set<UiImage>)
      modifies this
      ensures selection == s && images == old(images)
    {
      selection := s;
    }

    /** Deleting the images a command's selection names (here: one image). */
    method Delete(x: UiImage)
      modifies this
      ensures images == Without(old(images), x) && selection == old(selection)
    {
      images := Without(images, x);
    }
  }

  datatype Key = Escape | PageDown | Right | Down | PageUp | Left | Up | OtherKey(code: nat)

  class PreviewForm {
    const imageList: UiImageList
    var currentImage: Option<UiImage>
    var closed: bool

    constructor (imageList: UiImageList)
      ensures this.imageList == imageList && currentImage == None && !closed
    {
      this.imageList := imageList;
      currentImage := None;
      closed := false;
    }

    /** The CurrentImage getter: throws until an image has been set. */
    function CurrentImage(): (r: Result<UiImage, PreviewError>)
      reads this
      ensures r.Success? <==> currentImage.Some?
      ensures r.Success? ==> r.value == currentImage.value
    {
      match currentImage
      case None => Failure(NoCurrentImage)
      case Some(img) => Success(img)
    }

    /** ImageIndex: the first position of the current image in the list, 0 when it is not there. */
    function ImageIndex(): (r: Result<nat, PreviewError>)
      reads this, imageList
      ensures r.Success? <==> currentImage.Some?
      ensures r.Success? && currentImage.value in imageList.images ==>
                && r.value < |imageList.images| && imageList.images[r.value] == currentImage.value
                && forall j :: 0 <= j < r.value ==> imageList.images[j] != currentImage.value
      ensures r.Success? && currentImage.value !in imageList.images ==> r.value == 0
    {
      match CurrentImage()
      case Failure(e) => Failure(e)
      case Success(img) =>
        var index := IndexOf(imageList.images, img);
        Success(if index == -1 then 0 else index)
    }

    /** The CurrentImage setter (the selection-providing command set follows it). */
    method SetCurrentImage(img: UiImage)
      modifies this
      ensures currentImage == Some(img) && closed == old(closed)
    {
      currentImage := Some(img);
    }

    /**
     * GoTo(index): nothing changes for the current index or one outside the
     * list; otherwise that image becomes current and the only one selected.
     */
    method GoTo(index: int) returns (r: Result<(), PreviewError>)
      modifies this, imageList
      ensures r.Success? <==> old(currentImage).Some?
      ensures imageList.images == old(imageList.images) && closed == old(closed)
      ensures var old_index := old(ImageIndex());
              var moves := old_index.Success? && index != old_index.value && 0 <= index < |imageList.images|;
              && (moves ==> currentImage == Some(imageList.images[index]) && imageList.selection == {imageList.images[index]})
              && (!moves ==> currentImage == old(currentImage) && imageList.selection == old(imageList.selection))
              && (moves && Distinct(imageList.images) ==> ImageIndex() == Success(index))
    {
      var current := ImageIndex();
      if current.Failure? {
        return Failure(current.error);
      }
      if index == current.value || index < 0 || index >= |imageList.images| {
        return Success(());
      }
      SetCurrentImage(imageList.images[index]);
      imageList.UpdateSelection({imageList.images[index]});
      if Distinct(imageList.images) {
        IndexOfDistinct(imageList.images, index);
      }
      r := Success(());
    }

    /** GoToPrevCommand and the PageUp/Left/Up keys: GoTo(ImageIndex - 1). */
    method GoToPrevious() returns (r: Result<(), PreviewError>)
      modifies this, imageList
      ensures r.Success? <==> old(currentImage).Some?
      ensures imageList.images == old(imageList.images) && closed == old(closed)
      ensures var i := old(ImageIndex());
              && (i.Success? && i.value > 0 ==>
                    currentImage == Some(imageList.images[i.value - 1]) && imageList.selection == {imageList.images[i.value - 1]})
              && (i.Success? && i.value == 0 ==>
                    currentImage == old(currentImage) && imageList.selection == old(imageList.selection))
    ensures old(currentImage).None? ==> currentImage == old(currentImage) && imageList.selection == old(imageList.selection)
    {
      var current := ImageIndex();
      if current.Failure? {
        return Failure(current.error);
      }
      r := GoTo(current.value as int - 1);
    }

    /** GoToNextCommand and the PageDown/Right/Down keys: GoTo(ImageIndex + 1). */
    method GoToNext() returns (r: Result<(), PreviewError>)
      modifies this, imageList
      ensures r.Success? <==> old(currentImage).Some?
      ensures imageList.images == old(imageList.images) && closed == old(closed)
      ensures var i := old(ImageIndex());
              && (i.Success? && i.value + 1 < |imageList.images| ==>
                    currentImage == Some(imageList.images[i.value + 1]) && imageList.selection == {imageList.images[i.value + 1]})
              && (i.Success? && i.value + 1 >= |imageList.images| ==>
                    currentImage == old(currentImage) && imageList.selection == old(imageList.selection))
    ensures old(currentImage).None? ==> currentImage == old(currentImage) && imageList.selection == old(imageList.selection)
    {
      var current := ImageIndex();
      if current.Failure? {
        return Failure(current.error);
      }
      r := GoTo(current.value + 1);
    }

    /**
     * OnKeyDown without modifier keys: Escape closes, the forward and backward
     * keys move by one image. Other keys go to the keyboard-shortcut manager,
     * which is not part of this model; here they change nothing.
     */
    method OnKeyDown(key: Key, control: bool, shift: bool, alt: bool) returns (r: Result<(), PreviewError>)
      modifies this, imageList
      ensures imageList.images == old(imageList.images)
      ensures (control || shift || alt || key.OtherKey?) ==>
                r.Success? && currentImage == old(currentImage) && closed == old(closed)
                && imageList.selection == old(imageList.selection)
      ensures !(control || shift || alt) && key == Escape ==>
                r.Success? && closed && currentImage == old(currentImage)
                && imageList.selection == old(imageList.selection)
      ensures !(control || shift || alt) && key in {PageDown, Right, Down, PageUp, Left, Up} ==>
                && closed == old(closed) && (r.Success? <==> old(currentImage).Some?)
                && (old(currentImage).None? ==>
                      currentImage == old(currentImage) && imageList.selection == old(imageList.selection))
      ensures !(control || shift || alt) && key in {PageDown, Right, Down} ==>
                var i := old(ImageIndex());
                && (i.Success? && i.value + 1 < |imageList.images| ==>
                      currentImage == Some(imageList.images[i.value + 1]) && imageList.selection == {imageList.images[i.value + 1]})
                && (i.Success? && i.value + 1 >= |imageList.images| ==>
                      currentImage == old(currentImage) && imageList.selection == old(imageList.selection))
      ensures !(control || shift || alt) && key in {PageUp, Left, Up} ==>
                var i := old(ImageIndex());
                && (i.Success? && i.value > 0 ==>
                      currentImage == Some(imageList.images[i.value - 1]) && imageList.selection == {imageList.images[i.value - 1]})
                && (i.Success? && i.value == 0 ==>
                      currentImage == old(currentImage) && imageList.selection == old(imageList.selection))
    {
      r := Success(());
      if !(control || shift || alt) {
        match key {
          case Escape =>
            closed := true;
          case PageDown =>
            r := GoToNext();
          case Right =>
            r := GoToNext();
          case Down =>
            r := GoToNext();
          case PageUp =>
            r := GoToPrevious();
          case Left =>
            r := GoToPrevious();
          case Up =>
            r := GoToPrevious();
          case OtherKey(_) =>
        }
      }
    }

    /**
     * DeleteCurrentImage: remember the index, delete the current image if the
     * user confirmed, then show the image at that index (or the last one) and
     * select it alone; with no image left, clear the selection and close.
     */
    method DeleteCurrentImage(confirmed: bool) returns (r: Result<(), PreviewError>)
      modifies this, imageList
      ensures r.Success? <==> old(currentImage).Some?
      ensures r.Failure? ==> imageList.images == old(imageList.images) && currentImage == old(currentImage)
                             && closed == old(closed) && imageList.selection == old(imageList.selection)
      ensures r.Success? ==>
                && imageList.images == (if confirmed then Without(old(imageList.images), old(currentImage).value)
                                        else old(imageList.images))
                && (|imageList.images| == 0 ==> closed && imageList.selection == {} && currentImage == old(currentImage))
                && (|imageList.images| > 0 ==>
                      var next := imageList.images[NextIndexAfterDelete(old(ImageIndex()).value, |imageList.images|)];
                      currentImage == Some(next) && imageList.selection == {next} && closed == old(closed))
      ensures r.Success? && confirmed && Distinct(old(imageList.images)) && old(currentImage).value in old(imageList.images) ==>
                var k := old(ImageIndex()).value;
                && |imageList.images| == |old(imageList.images)| - 1
                && imageList.images == old(imageList.images)[..k] + old(imageList.images)[k + 1..]
    {
      var last := ImageIndex();
      if last.Failure? {
        return Failure(last.error);
      }
      var lastIndex := last.value;
      if confirmed {
        if Distinct(imageList.images) && currentImage.value in imageList.images {
          WithoutDistinctLength(imageList.images, currentImage.value);
          WithoutDistinctAt(imageList.images, currentImage.value, lastIndex);
        }
        imageList.Delete(currentImage.value);
      }
      if |imageList.images| > 0 {
        var nextIndex := NextIndexAfterDelete(lastIndex, |imageList.images|);
        SetCurrentImage(imageList.images[nextIndex]);
        imageList.UpdateSelection({imageList.images[nextIndex]});
      } else {
        imageList.UpdateSelection({});
        closed := true;
      }
      r := Success(());
    }
  }

  /** In a list without repeats, the image at position i has index i. */
  lemma {:induction false} IndexOfDistinct(s: seq<UiImage>, i: nat)
    requires i < |s|
    requires Distinct(s)
    ensures IndexOf(s, s[i]) == i
  {
  }

  /** Deleting an image that is present leaves one image fewer when the list has no repeats. */
  lemma {:induction false} WithoutDistinctLength(s: seq<UiImage>, x: UiImage)
    requires x in s
    requires Distinct(s)
    ensures |Without(s, x)| == |s| - 1
    decreases |s|
  {
    if s[0] == x {
      WithoutAbsent(s[1..], x);
    } else {
      WithoutDistinctLength(s[1..], x);
    }
  }

  lemma {:induction false} WithoutAbsent(s: seq<UiImage>, x: UiImage)
    requires x !in s
    ensures Without(s, x) == s
    decreases |s|
  {
    if |s| > 0 {
      WithoutAbsent(s[1..], x);
    }
  }

  /** In a list without repeats, deleting the image at position i keeps the others in their order. */
  lemma {:induction false} WithoutDistinctAt(s: seq<UiImage>, x: UiImage, i: nat)
    requires i < |s| && s[i] == x
    requires Distinct(s)
    ensures Without(s, x) == s[..i] + s[i + 1..]
    decreases |s|
  {
    if i == 0 {
      WithoutAbsent(s[1..], x);
      assert s[1..] == s[..0] + s[0 + 1..];
    } else {
      assert s[0] != x;
      WithoutDistinctAt(s[1..], x, i - 1);
      assert s[1..][..i - 1] == s[1..i] && s[1..][i - 1 + 1..] == s[i + 1..];
      assert [s[0]] + s[1..i] == s[..i];
    }
  }
}
