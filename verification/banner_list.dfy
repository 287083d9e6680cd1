/**
 * The banner list of the clinic and professional forms: at most five image
 * URLs, each editable in place or removable, with an "add" button that
 * appends an empty entry and is shown only while fewer than five exist.
 */
module BannerList {
  const MaxBanners: nat := 5

  /** The "add banner" button: shown only below the limit, appends `""`. */
  function Add(banners: seq<string>): (r: seq<string>)
    ensures |banners| < MaxBanners ==> r == banners + [""]
    ensures |banners| >= MaxBanners ==> r == banners
    ensures |banners| <= MaxBanners ==> |r| <= MaxBanners
  {
    if |banners| < MaxBanners then banners + [""] else banners
  }

  /** `banners.filter((_, i) => i !== index)`: exactly entry `index` disappears. */
  function RemoveAt(banners: seq<string>, index: nat): (r: seq<string>)
    requires index < |banners|
    ensures |r| == |banners| - 1
    ensures forall k :: 0 <= k < index ==> r[k] == banners[k]
    ensures forall k :: index <= k < |r| ==> r[k] == banners[k + 1]
  {
    banners[..index] + banners[index + 1..]
  }

  /** `newBanners[index] = url`: only entry `index` changes. */
  function SetAt(banners: seq<string>, index: nat, url: string): (r: seq<string>)
    requires index < |banners|
    ensures |r| == |banners| && r[index] == url
    ensures forall k :: 0 <= k < |banners| && k != index ==> r[k] == banners[k]
  {
    banners[index := url]
  }

  /** Adding then removing the new last entry gives back the list. */
  lemma AddThenRemove(banners: seq<string>)
    requires |banners| < MaxBanners
    ensures RemoveAt(Add(banners), |banners|) == banners
  {
  }
}
