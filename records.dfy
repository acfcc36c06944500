/**
 * The profile record the catalog stores, the slug rule that derives a
 * record's key from its name, and the three records the catalog seeds
 * itself with when nothing usable is stored.
 */
module Records {
  import opened Wrappers
  import opened Text

  /** One social or external link of a profile. */
  datatype Website = Website(name: string, url: string, picture: string, kind: string)

  /**
   * A profile. Timestamps are milliseconds since the epoch. A field a stored
   * object lacks is held by its neutral value: no tags is `[]`, no views is
   * `0` (the code always reads `views || 0`), no favourite flag is `false`.
   */
  datatype Record = Record(
    slug: string,
    name: string,
    category: string,
    tags: seq<string>,
    websites: seq<Website>,
    gallery: seq<string>,
    thumb: string,
    views: int,
    createdAt: Option<int>,
    lastViewed: Option<int>,
    favorite: bool)

  /** The thumbnail a record gets when no thumbnail URL is given. */
  const Placeholder: string := "https://via.placeholder.com/300x240/374151/9ca3af?text=No+Image"

  /** The characters a derived slug is made of: `[a-z0-9-]`. */
  predicate IsSlugChar(c: char) {
    IsLower(c) || IsDigit(c) || c == '-'
  }

  /** One character of `name.toLowerCase().replace(/[^a-z0-9]/g, '-')`. */
  function SlugChar(c: char): (d: char)
    ensures IsSlugChar(d)
    ensures IsSlugChar(c) ==> d == c
  {
    var l := LowerChar(c);
    if IsLower(l) || IsDigit(l) then l else '-'
  }

  /**
   * The slug derived from a name: lower-case it, then replace every
   * character outside `[a-z0-9]` by `-`.
   */
  function SlugOf(name: string): (slug: string)
    ensures |slug| == |name|
    ensures forall i :: 0 <= i < |slug| ==> IsSlugChar(slug[i])
    ensures forall i :: 0 <= i < |name| && (IsLower(name[i]) || IsDigit(name[i])) ==> slug[i] == name[i]
  {
    seq(|name|, i requires 0 <= i < |name| => SlugChar(name[i]))
  }

  /** A string made of slug characters is its own slug. */
  lemma {:induction false} SlugOfSlug(s: string)
    requires forall i :: 0 <= i < |s| ==> IsSlugChar(s[i])
    ensures SlugOf(s) == s
  {
    forall i | 0 <= i < |s| ensures SlugOf(s)[i] == s[i] {
      assert IsSlugChar(s[i]);
    }
  }

  /** Deriving the slug again changes nothing. */
  lemma SlugOfIdempotent(name: string)
    ensures SlugOf(SlugOf(name)) == SlugOf(name)
  {
    SlugOfSlug(SlugOf(name));
  }

  /** The derivation is lossy: two different names can share a slug. */
  lemma SlugOfCollides()
    ensures SlugOf("A/B") == "a-b" && SlugOf("a b") == "a-b"
  {
    assert SlugOf("A/B") == ['a', '-', 'b'];
    assert SlugOf("a b") == ['a', '-', 'b'];
  }

  /** The seed records; `now` stands for the `new Date().toISOString()` each one is stamped with. */
  function SampleData(now: int): (rs: seq<Record>)
    ensures |rs| == 3
    ensures forall r :: r in rs ==> r.slug != "" && r.createdAt == Some(now)
  {
    [EmmaStone(now), MeganFox(now), Lisa(now)]
  }

  function EmmaStone(now: int): (r: Record)
    ensures r.slug == "emma-stone" && r.createdAt == Some(now)
  {
    Record("emma-stone", "Emma Stone", "worldwide", ["oscar", "comedy", "hollywood"],
      [Website("Instagram", EmmaInstagram, "", "instagram"), Website("Wikipedia", EmmaWikipedia, "", "wikipedia")],
      [EmmaPhoto1, EmmaPhoto2], EmmaThumb, 15, Some(now), None, false)
  }

  function MeganFox(now: int): (r: Record)
    ensures r.slug == "megan-fox" && r.createdAt == Some(now)
  {
    Record("megan-fox", "Megan Fox", "worldwide", ["action", "model", "transformers"],
      [Website("Instagram", MeganInstagram, "", "instagram")],
      [MeganPhoto1], MeganThumb, 8, Some(now), None, false)
  }

  function Lisa(now: int): (r: Record)
    ensures r.slug == "Lisa" && r.name == "Lisa" && r.createdAt == Some(now)
  {
    Record("Lisa", "Lisa", "japanese", ["singer", "japanese", "model"],
      [Website("Twitter", LisaLink, "", "twitter")],
      [LisaPhoto1, LisaPhoto2, LisaPhoto3], LisaThumb, 23, Some(now), None, false)
  }

  const EmmaInstagram: string := "https://instagram.com/emmastone"
  const EmmaWikipedia: string := "https://en.wikipedia.org/wiki/Emma_Stone"
  const EmmaPhoto1: string := "https://via.placeholder.com/400x600/ef4444/fff?text=Emma+Stone+1"
  const EmmaPhoto2: string := "https://via.placeholder.com/400x600/ef4444/fff?text=Emma+Stone+2"
  const EmmaThumb: string := "https://via.placeholder.com/300x240/ef4444/fff?text=Emma+Stone"
  const MeganInstagram: string := "https://instagram.com/meganfox"
  const MeganPhoto1: string := "https://via.placeholder.com/400x600/ef4444/fff?text=Megan+Fox+1"
  const MeganThumb: string := "https://via.placeholder.com/300x240/ef4444/fff?text=Megan+Fox"
  const LisaLink: string := "https://www.instagram.com/lalalalisa_m/?hl=bn"
  const LisaPhoto1: string := "https://www.billboard.com/wp-content/uploads/2024/08/lisa-blackpink-2024-a-kl-billboard-1548.jpg?w=942&h=628&crop=1"
  const LisaPhoto2: string := "https://hips.hearstapps.com/hmg-prod/images/8531-iwtqvyi7823238-1601382437.jpg"
  const LisaPhoto3: string := "https://e1.pxfuel.com/desktop-wallpaper/892/32/desktop-wallpaper-blackpink-lisa-blackpink-lisa-cute.jpg"
  const LisaThumb: string := "https://imageio.forbes.com/specials-images/imageserve/668d754c72c52b8fe137252e/2022-Bulgari-Aurora-Awards-in-Seoul---Photo-Call/0x0.jpg?crop=2022%2C1517%2Cx0%2Cy98%2Csafe&width=960&dpr=2"

  /** The third seed record's slug is not the one its name derives, so stored slugs need not be derived ones. */
  lemma SampleSlugNotDerived(now: int)
    ensures SampleData(now)[2].slug != SlugOf(SampleData(now)[2].name)
  {
    assert SlugOf("Lisa")[0] == 'l';
  }
}
