/**
 News items and the absolute image address handed to the front end.
 */
module NewsModels {
  import opened Common
  import opened UserModels

  /** The development host that `News.image_url` prefixes to a root-relative media address. */
  const MediaHost: string := "http://127.0.0.1:8000"

  /**
   `image` is the stored file's address (`self.image.url`), `None` when no file is
   attached. `NewsView` markers are kept by the news store as (news id, user id) pairs.
   */
  datatype News = News(
    id: nat,
    title: string,
    summary: string,
    content: string,
    image: Option<string>,
    category: Option<nat>,
    author: UserId,
    publicationDate: Time,
    isPublished: bool,
    isFeatured: bool,
    viewsCount: int,
    createdAt: Time)

  /** `News.image_url`. */
  function ImageUrl(image: Option<string>): (r: Option<string>)
    ensures r.None? <==> image.None?
    ensures image.Some? ==> |image.value| <= |r.value| && r.value[|r.value| - |image.value|..] == image.value
    ensures image.Some? && image.value != [] && image.value[0] == '/' ==> r.value == MediaHost + image.value
    ensures image.Some? && (image.value == [] || image.value[0] != '/') ==> r.value == image.value
  {
    match image
    case None => None
    case Some(url) =>
      if |url| > 0 && url[0] == '/' then Some(MediaHost + url) else Some(url)
  }
}
