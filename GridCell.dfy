/**
 * GridViewCell: a reusable grid slot. It remembers which asset it was last
 * bound to, and its two image properties push their values into the image
 * views that display them.
 */
module GridCell {
  import opened Wrappers

  /** A decoded image, identified by an opaque handle. */
  datatype Image = Image(handle: nat)

  class GridViewCell {
    /** The local identifier of the asset this slot was last bound to
        (nil until the first binding). */
    var representedAssetIdentifier: Option<string>

    var thumbnailImage: Option<Image>
    var livePhotoBadgeImage: Option<Image>

    /** What `imageView` and `livePhotoBadgeImageView` display. */
    var displayedImage: Option<Image>
    var displayedBadge: Option<Image>

    /** Both image views show the values of their properties. */
    ghost predicate Mirrors()
      reads this
    {
      displayedImage == thumbnailImage && displayedBadge == livePhotoBadgeImage
    }

    constructor ()
      ensures representedAssetIdentifier == None
      ensures thumbnailImage == None && livePhotoBadgeImage == None
      ensures displayedImage == None && displayedBadge == None
      ensures Mirrors()
    {
      representedAssetIdentifier := None;
      thumbnailImage, livePhotoBadgeImage := None, None;
      displayedImage, displayedBadge := None, None;
    }

    /** Assigning `thumbnailImage`; its didSet shows it in the image view. */
    method SetThumbnailImage(image: Option<Image>)
      modifies this
      ensures thumbnailImage == image && displayedImage == image
      ensures livePhotoBadgeImage == old(livePhotoBadgeImage) && displayedBadge == old(displayedBadge)
      ensures representedAssetIdentifier == old(representedAssetIdentifier)
      ensures old(displayedBadge == livePhotoBadgeImage) ==> Mirrors()
    {
      thumbnailImage := image;
      displayedImage := thumbnailImage;
    }

    /** Assigning `livePhotoBadgeImage`; its didSet shows it in the badge view. */
    method SetLivePhotoBadgeImage(image: Option<Image>)
      modifies this
      ensures livePhotoBadgeImage == image && displayedBadge == image
      ensures thumbnailImage == old(thumbnailImage) && displayedImage == old(displayedImage)
      ensures representedAssetIdentifier == old(representedAssetIdentifier)
      ensures old(displayedImage == thumbnailImage) ==> Mirrors()
    {
      livePhotoBadgeImage := image;
      displayedBadge := livePhotoBadgeImage;
    }

    /** Binding the slot to an asset. */
    method SetRepresentedAssetIdentifier(id: string)
      modifies this
      ensures representedAssetIdentifier == Some(id)
      ensures thumbnailImage == old(thumbnailImage) && livePhotoBadgeImage == old(livePhotoBadgeImage)
      ensures displayedImage == old(displayedImage) && displayedBadge == old(displayedBadge)
    {
      representedAssetIdentifier := Some(id);
    }

    /** prepareForReuse: both image views are cleared; the identifier and the
        two properties keep their values (so the views no longer mirror the
        properties unless those were nil already). */
    method PrepareForReuse()
      modifies this
      ensures displayedImage == None && displayedBadge == None
      ensures representedAssetIdentifier == old(representedAssetIdentifier)
      ensures thumbnailImage == old(thumbnailImage) && livePhotoBadgeImage == old(livePhotoBadgeImage)
      ensures Mirrors() <==> thumbnailImage == None && livePhotoBadgeImage == None
    {
      displayedImage := None;
      displayedBadge := None;
    }
  }
}
