/** The container-registry service: repositories and the images inside them
    as one closed sum of resource items, the service's filter predicate, its
    drill-down, clipboard export, data loading and the image ordering. */
module Ecr {
  import opened Traits
  import Text

  /** A repository record as the registry listing delivers it; creation
      times are integer timestamps. */
  datatype EcrRepository = EcrRepository(
    repositoryName: string,
    repositoryUri: string,
    registryId: string,
    createdAt: Option<int>,
    imageTagMutability: string,
    imageScanningConfiguration: bool,
    encryptionConfiguration: string)

  /** An image of a repository: its first tag (if any), digest, push time,
      size and scan summary text. */
  datatype EcrImage = EcrImage(
    imageTag: Option<string>,
    imageDigest: string,
    imagePushedAt: Option<int>,
    imageSizeInBytes: Option<int>,
    vulnerabilityScanSummary: Option<string>)

  /** Every kind of item the service caches; matching on it replaces the
      type-checked downcasts. */
  datatype ResourceItem = Repository(repository: EcrRepository) | Image(image: EcrImage)

  /** One cache entry: the items of one load, in the order loaded. */
  datatype ResourceData = ResourceData(items: seq<ResourceItem>)

  /** The unique id of an item: a repository's name, an image's digest. */
  function ItemId(item: ResourceItem): (id: string)
    ensures item.Repository? ==> id == item.repository.repositoryName
    ensures item.Image? ==> id == item.image.imageDigest
  {
    match item
    case Repository(repo) => repo.repositoryName
    case Image(img) => img.imageDigest
  }

  // ---------------------------------------------------------------------
  // Image records as the registry describes them, and their conversion

  /** The scan findings of an image: the per-severity counts, when the scan
      has produced them. */
  datatype ScanFindingsSummary = ScanFindingsSummary(findingSeverityCounts: Option<seq<int>>)

  /** An image description as the registry returns it. */
  datatype ImageDetail = ImageDetail(
    imageTags: seq<string>,
    imageDigest: Option<string>,
    imagePushedAt: Option<int>,
    imageSizeInBytes: Option<int>,
    imageScanFindingsSummary: Option<ScanFindingsSummary>)

  function Sum(xs: seq<int>): int
    decreases |xs|
  {
    if xs == [] then 0 else xs[0] + Sum(xs[1..])
  }

  const FindingsSuffix: string := " findings"

  /** The text shown for an image's scan: nothing when it was never
      scanned, "Scan pending" without counts, otherwise the total number of
      findings or "No vulnerabilities". */
  function VulnerabilitySummary(summary: Option<ScanFindingsSummary>): (r: Option<string>)
    ensures r.None? <==> summary.None?
    ensures summary.Some? && summary.value.findingSeverityCounts.None? ==> r == Some("Scan pending")
    ensures summary.Some? && summary.value.findingSeverityCounts.Some? ==>
      var total := Sum(summary.value.findingSeverityCounts.value);
      r == Some(if total > 0 then Text.NatToDecimal(total) + FindingsSuffix else "No vulnerabilities")
  {
    match summary
    case None => None
    case Some(s) =>
      match s.findingSeverityCounts
      case None => Some("Scan pending")
      case Some(counts) =>
        var total := Sum(counts);
        if total > 0 then Some(Text.NatToDecimal(total) + FindingsSuffix) else Some("No vulnerabilities")
  }

  /** A positive total can be read back from the summary text: its digits
      before the suffix denote the total, and the text differs from both
      fixed messages. */
  lemma SummaryReportsTotal(counts: seq<int>)
    requires Sum(counts) > 0
    ensures var r := VulnerabilitySummary(Some(ScanFindingsSummary(Some(counts))));
      && r.Some?
      && |r.value| > |FindingsSuffix|
      && r.value[|r.value| - |FindingsSuffix|..] == FindingsSuffix
      && r.value != "No vulnerabilities" && r.value != "Scan pending"
      && (var digits := r.value[..|r.value| - |FindingsSuffix|];
          (forall i :: 0 <= i < |digits| ==> '0' <= digits[i] <= '9')
          && Text.DecimalValue(digits) == Sum(counts))
  {
    var n := Text.NatToDecimal(Sum(counts));
    var r := n + FindingsSuffix;
    assert r[..|r| - |FindingsSuffix|] == n;
    assert r[|r| - |FindingsSuffix|..] == FindingsSuffix;
    Text.DecimalRoundTrip(Sum(counts));
    assert r[0] == n[0];
    assert "No vulnerabilities"[0] == 'N' && "Scan pending"[0] == 'S';
  }

  /** Converts a registry description: the first tag, the digest or "",
      the push time, the size and the scan summary. */
  function FromImageDetail(d: ImageDetail): (img: EcrImage)
    ensures img.imageTag == (if |d.imageTags| > 0 then Some(d.imageTags[0]) else None)
    ensures img.imageDigest == (if d.imageDigest.Some? then d.imageDigest.value else "")
    ensures img.imagePushedAt == d.imagePushedAt && img.imageSizeInBytes == d.imageSizeInBytes
    ensures img.vulnerabilityScanSummary == VulnerabilitySummary(d.imageScanFindingsSummary)
  {
    EcrImage(
      if |d.imageTags| > 0 then Some(d.imageTags[0]) else None,
      match d.imageDigest case Some(g) => g case None => "",
      d.imagePushedAt,
      d.imageSizeInBytes,
      VulnerabilitySummary(d.imageScanFindingsSummary))
  }

  function ConvertAll(details: seq<ImageDetail>): (imgs: seq<EcrImage>)
    ensures |imgs| == |details|
    ensures forall i :: 0 <= i < |details| ==> imgs[i] == FromImageDetail(details[i])
  {
    seq(|details|, i requires 0 <= i < |details| => FromImageDetail(details[i]))
  }

  // ---------------------------------------------------------------------
  // Image ordering: latest push first, undated images last

  datatype Ordering = Less | Equal | Greater

  /** The comparator the image list is sorted with: the later push first,
      dated before undated, and images with the same push time (or both
      undated) equal. */
  function ComparePushed(a: EcrImage, b: EcrImage): (o: Ordering)
    ensures o == Less <==>
      a.imagePushedAt.Some? && (b.imagePushedAt.None? || b.imagePushedAt.value < a.imagePushedAt.value)
    ensures o == Greater <==>
      b.imagePushedAt.Some? && (a.imagePushedAt.None? || a.imagePushedAt.value < b.imagePushedAt.value)
    ensures o == Equal <==> a.imagePushedAt == b.imagePushedAt
  {
    match (a.imagePushedAt, b.imagePushedAt)
    case (Some(x), Some(y)) => if y < x then Less else if y == x then Equal else Greater
    case (Some(_), None) => Less
    case (None, Some(_)) => Greater
    case (None, None) => Equal
  }

  /** `a` may stand before `b` in the sorted list. */
  predicate InOrder(a: EcrImage, b: EcrImage)
  {
    ComparePushed(a, b) != Greater
  }

  lemma InOrderTotal(a: EcrImage, b: EcrImage)
    ensures InOrder(a, b) || InOrder(b, a)
  {
  }

  lemma InOrderTransitive(a: EcrImage, b: EcrImage, c: EcrImage)
    requires InOrder(a, b) && InOrder(b, c)
    ensures InOrder(a, c)
  {
  }

  ghost predicate SortedByPushed(s: seq<EcrImage>)
  {
    forall i, j :: 0 <= i < j < |s| ==> InOrder(s[i], s[j])
  }

  /** Every dated image comes before every undated one. */
  ghost predicate DatedFirst(s: seq<EcrImage>)
  {
    forall i, j :: 0 <= i < j < |s| && s[j].imagePushedAt.Some? ==> s[i].imagePushedAt.Some?
  }

  /** Dated images are in non-increasing push-time order. */
  ghost predicate NewestFirst(s: seq<EcrImage>)
  {
    forall i, j :: 0 <= i < j < |s| && s[i].imagePushedAt.Some? && s[j].imagePushedAt.Some? ==>
      s[i].imagePushedAt.value >= s[j].imagePushedAt.value
  }

  lemma SortedMeansDatedFirstNewestFirst(s: seq<EcrImage>)
    requires SortedByPushed(s)
    ensures DatedFirst(s) && NewestFirst(s)
  {
    forall i, j | 0 <= i < j < |s|
      ensures s[j].imagePushedAt.Some? ==> s[i].imagePushedAt.Some?
    {
      assert InOrder(s[i], s[j]);
    }
    forall i, j | 0 <= i < j < |s| && s[i].imagePushedAt.Some? && s[j].imagePushedAt.Some?
      ensures s[i].imagePushedAt.value >= s[j].imagePushedAt.value
    {
      assert InOrder(s[i], s[j]);
    }
  }

  method Swap(a: array<EcrImage>, i: nat, j: nat)
    requires i < a.Length && j < a.Length
    modifies a
    ensures a[..] == old(a[..])[i := old(a[j])][j := old(a[i])]
    ensures multiset(a[..]) == old(multiset(a[..]))
  {
    a[i], a[j] := a[j], a[i];
  }

  /** Sorts the images in place with the push-time comparator. Elements are
      moved only past strictly greater neighbours, so images that compare
      equal keep their order, as with the standard library's stable sort. */
  method SortByPushed(a: array<EcrImage>)
    modifies a
    ensures multiset(a[..]) == old(multiset(a[..]))
    ensures SortedByPushed(a[..])
    ensures DatedFirst(a[..]) && NewestFirst(a[..])
  {
    var i := 0;
    while i < a.Length
      invariant 0 <= i <= a.Length
      invariant multiset(a[..]) == old(multiset(a[..]))
      invariant forall k, m :: 0 <= k < m < i ==> InOrder(a[k], a[m])
    {
      var j := i;
      while j > 0 && ComparePushed(a[j - 1], a[j]) == Greater
        invariant 0 <= j <= i
        invariant multiset(a[..]) == old(multiset(a[..]))
        invariant forall k, m :: 0 <= k < m <= i && k != j && m != j ==> InOrder(a[k], a[m])
        invariant forall m :: j < m <= i ==> InOrder(a[j], a[m])
      {
        Swap(a, j - 1, j);
        j := j - 1;
      }
      forall k, m | 0 <= k < m <= i
        ensures InOrder(a[k], a[m])
      {
        if m == j && k < j - 1 {
          InOrderTransitive(a[k], a[j - 1], a[j]);
        }
      }
      i := i + 1;
    }
    SortedMeansDatedFirstNewestFirst(a[..]);
  }

  /** `images` sorted latest push first and undated last, by sorting a
      fresh array copy of them in place. */
  method SortImages(images: seq<EcrImage>) returns (sorted: seq<EcrImage>)
    ensures multiset(sorted) == multiset(images)
    ensures SortedByPushed(sorted)
    ensures DatedFirst(sorted) && NewestFirst(sorted)
  {
    var a := new EcrImage[|images|](i requires 0 <= i < |images| => images[i]);
    assert a[..] == images;
    SortByPushed(a);
    sorted := a[..];
  }

  // ---------------------------------------------------------------------
  // Loading

  /** What the registry answers: the repository listing, and the image
      descriptions of each repository by name. Either may fail. */
  datatype Remote = Remote(
    repositories: Result<seq<EcrRepository>>,
    images: string -> Result<seq<ImageDetail>>)

  /** The images of one repository, converted and sorted latest first. */
  method GetRepositoryImages(remote: Remote, repositoryName: string) returns (r: Result<seq<EcrImage>>)
    ensures remote.images(repositoryName).Err? ==> r == Err(remote.images(repositoryName).error)
    ensures remote.images(repositoryName).Ok? ==>
      && r.Ok?
      && multiset(r.value) == multiset(ConvertAll(remote.images(repositoryName).value))
      && DatedFirst(r.value) && NewestFirst(r.value)
  {
    match remote.images(repositoryName)
    case Err(e) =>
      r := Err(e);
    case Ok(details) =>
      var images := SortImages(ConvertAll(details));
      r := Ok(images);
  }

  const Separator: char := '|'

  /** The drill-down context of a repository: its name and URI packed into
      one string. */
  function PackContext(repo: EcrRepository): (ctx: string)
    ensures |ctx| == |repo.repositoryName| + 1 + |repo.repositoryUri|
    ensures ctx[..|repo.repositoryName|] == repo.repositoryName
    ensures ctx[|repo.repositoryName|] == Separator
    ensures ctx[|repo.repositoryName| + 1..] == repo.repositoryUri
  {
    repo.repositoryName + [Separator] + repo.repositoryUri
  }

  /** The repository name a context names: its text before the first
      separator. */
  function ContextRepositoryName(ctx: string): (name: string)
    ensures Separator !in name
    ensures |name| <= |ctx| && name == ctx[..|name|]
    ensures |name| < |ctx| ==> ctx[|name|] == Separator
  {
    var parts := Text.Split(ctx, Separator);
    FirstPieceIsPrefix(ctx);
    if |parts| > 0 then parts[0] else ctx
  }

  lemma {:induction false} FirstPieceIsPrefix(s: string)
    ensures var p := Text.Split(s, Separator)[0];
      |p| <= |s| && p == s[..|p|] && (|p| < |s| ==> s[|p|] == Separator)
    decreases |s|
  {
    if |s| > 0 && s[0] != Separator {
      FirstPieceIsPrefix(s[1..]);
    }
  }

  /** Round trip: a repository whose name holds no separator is named again
      by the context that drilling into it packs. */
  lemma ContextRoundTrip(repo: EcrRepository)
    requires Separator !in repo.repositoryName
    ensures ContextRepositoryName(PackContext(repo)) == repo.repositoryName
  {
    Text.SplitPacked(repo.repositoryName, Separator, repo.repositoryUri);
  }

  /** Loads the items a view shows: the repositories for a list view, the
      images of the context's repository for a detail view, nothing for a
      detail view without context or a custom view. Fetch failures are
      passed on. */
  method LoadData(vs: ViewState, remote: Remote) returns (r: Result<ResourceData>)
    ensures LoadedFrom(vs, remote, r)
  {
    match vs.viewType {
      case List =>
        match remote.repositories {
          case Err(e) => r := Err(e);
          case Ok(repos) => r := Ok(ResourceData(RepositoryItems(repos)));
        }
      case Detail =>
        match vs.context {
          case Some(ctx) =>
            var images := GetRepositoryImages(remote, ContextRepositoryName(ctx));
            match images {
              case Err(e) => r := Err(e);
              case Ok(imgs) => r := Ok(ResourceData(ImageItems(imgs)));
            }
          case None => r := Ok(ResourceData([]));
        }
      case Custom(_) => r := Ok(ResourceData([]));
    }
  }

  function RepositoryItems(repos: seq<EcrRepository>): (items: seq<ResourceItem>)
    ensures |items| == |repos|
    ensures forall i :: 0 <= i < |repos| ==> items[i] == Repository(repos[i])
  {
    seq(|repos|, i requires 0 <= i < |repos| => Repository(repos[i]))
  }

  function ImageItems(imgs: seq<EcrImage>): (items: seq<ResourceItem>)
    ensures |items| == |imgs|
    ensures forall i :: 0 <= i < |imgs| ==> items[i] == Image(imgs[i])
  {
    seq(|imgs|, i requires 0 <= i < |imgs| => Image(imgs[i]))
  }

  /** The images loaded for `details`: all of them, converted, latest push
      first and undated last. */
  ghost predicate ImagesLoaded(details: seq<ImageDetail>, items: seq<ResourceItem>)
  {
    exists imgs :: items == ImageItems(imgs)
      && multiset(imgs) == multiset(ConvertAll(details))
      && DatedFirst(imgs) && NewestFirst(imgs)
  }

  /** `r` is what loading `vs` from `remote` yields. */
  ghost predicate LoadedFrom(vs: ViewState, remote: Remote, r: Result<ResourceData>)
  {
    match vs.viewType
    case List =>
      (match remote.repositories
       case Err(e) => r == Err(e)
       case Ok(repos) => r == Ok(ResourceData(RepositoryItems(repos))))
    case Detail =>
      (match vs.context
       case None => r == Ok(ResourceData([]))
       case Some(ctx) =>
         match remote.images(ContextRepositoryName(ctx))
         case Err(e) => r == Err(e)
         case Ok(details) => r.Ok? && ImagesLoaded(details, r.value.items))
    case Custom(_) => r == Ok(ResourceData([]))
  }

  // ---------------------------------------------------------------------
  // Filtering, drill-down and export

  /** A repository matches when the lower-cased filter is a substring of its
      lower-cased name. */
  function RepositoryMatches(repo: EcrRepository, filter: string): (b: bool)
    ensures b <==> Text.IsSubstring(Text.Lower(filter), Text.Lower(repo.repositoryName))
  {
    Text.Contains(Text.Lower(repo.repositoryName), Text.Lower(filter))
  }

  /** An image matches when it has a tag that contains the filter, ignoring
      case; an untagged image never matches. */
  function ImageMatches(img: EcrImage, filter: string): (b: bool)
    ensures b <==> img.imageTag.Some? && Text.IsSubstring(Text.Lower(filter), Text.Lower(img.imageTag.value))
  {
    match img.imageTag
    case Some(tag) => Text.Contains(Text.Lower(tag), Text.Lower(filter))
    case None => false
  }

  /** The service's filter predicate over any cached item. */
  function MatchesFilter(item: ResourceItem, filter: string): (b: bool)
    ensures item.Repository? ==> (b <==> RepositoryMatches(item.repository, filter))
    ensures item.Image? ==> (b <==> ImageMatches(item.image, filter))
  {
    match item
    case Repository(repo) => RepositoryMatches(repo, filter)
    case Image(img) => ImageMatches(img, filter)
  }

  /** The filtered view of cached data under the service's predicate. */
  function FilterItems(data: ResourceData, filter: string): (r: seq<ResourceItem>)
    ensures filter == "" ==> r == data.items
    ensures |r| <= |data.items|
    ensures forall k :: 0 <= k < |r| ==> filter == "" || MatchesFilter(r[k], filter)
  {
    KeepAccepts(data.items, filter, MatchesFilter);
    FilterData(data.items, filter, MatchesFilter)
  }

  /** Pressing Enter: in a list view with a highlighted repository, the
      detail view of that repository for the same service, fresh selection
      and filter, with the packed context; nothing otherwise. */
  function HandleEnter(vs: ViewState, data: ResourceData): (r: Option<ViewState>)
    ensures var filtered := FilterItems(data, vs.searchFilter);
      r.Some? <==> vs.viewType == List && vs.selectedIndex < |filtered| && filtered[vs.selectedIndex].Repository?
    ensures r.Some? ==>
      var repo := FilterItems(data, vs.searchFilter)[vs.selectedIndex].repository;
      && r.value.serviceId == vs.serviceId
      && r.value.viewType == Detail
      && r.value.selectedIndex == 0
      && r.value.searchFilter == ""
      && r.value.context == Some(repo.repositoryName + "|" + repo.repositoryUri)
  {
    match vs.viewType
    case List =>
      var filtered := FilterItems(data, vs.searchFilter);
      if vs.selectedIndex < |filtered| then
        (match filtered[vs.selectedIndex]
         case Repository(repo) =>
           Some(NewViewState(vs.serviceId, Detail).(context := Some(PackContext(repo))))
         case Image(_) => None)
      else None
    case Detail => None
    case Custom(_) => None
  }

  /** The detail view Enter opens loads the images of exactly the repository
      that was highlighted, when its name holds no separator. */
  lemma EnterLoadsSelectedRepository(vs: ViewState, data: ResourceData)
    requires HandleEnter(vs, data).Some?
    requires Separator !in FilterItems(data, vs.searchFilter)[vs.selectedIndex].repository.repositoryName
    ensures var next := HandleEnter(vs, data).value;
      && next.context.Some?
      && ContextRepositoryName(next.context.value)
         == FilterItems(data, vs.searchFilter)[vs.selectedIndex].repository.repositoryName
  {
    ContextRoundTrip(FilterItems(data, vs.searchFilter)[vs.selectedIndex].repository);
  }

  const UnknownRepositoryUri: string := "unknown.dkr.ecr.region.amazonaws.com"
  const DigestDisplayLength: nat := 36

  /** The digest as the status line shows it: up to 36 characters, followed
      by "..." when something was cut. */
  function ShortDigest(digest: string): (s: string)
    ensures |digest| <= DigestDisplayLength ==> s == digest
    ensures |digest| > DigestDisplayLength ==>
      |s| == DigestDisplayLength + 3 && s[..DigestDisplayLength] == digest[..DigestDisplayLength]
      && s[DigestDisplayLength..] == "..."
  {
    if |digest| > DigestDisplayLength then digest[..DigestDisplayLength] + "..." else digest
  }

  /** The repository name and URI a detail view's context carries: the
      first piece is the name; the second piece, up to the next separator,
      is the URI, and a context without a separator carries the fallback
      URI. (The name never falls back: splitting always yields a first
      piece.) */
  function ContextParts(ctx: string): (p: (string, string))
    ensures p.0 == ContextRepositoryName(ctx)
    ensures Separator !in ctx ==> p == (ctx, UnknownRepositoryUri)
    ensures Separator in ctx ==> p.1 == ContextRepositoryName(ctx[|p.0| + 1..])
  {
    var name := ContextRepositoryName(ctx);
    var parts := Text.Split(ctx, Separator);
    if |name| < |ctx| then
      var rest := ctx[|name| + 1..];
      assert ctx == name + [Separator] + rest;
      Text.SplitPacked(name, Separator, rest);
      (name, Text.Split(rest, Separator)[0])
    else
      Text.SplitNoSeparator(ctx, Separator);
      assert |parts| == 1;
      (name, UnknownRepositoryUri)
  }

  /** The clipboard text and status label for an image of the repository
      named `repoName` at `repoUri`: `uri:tag` for a tagged image, otherwise
      `uri@digest` with the digest shortened in the label. */
  function ImageCopyContent(repoName: string, repoUri: string, img: EcrImage): (r: (string, string))
    ensures img.imageTag.Some? ==>
      r == (repoUri + ":" + img.imageTag.value, repoName + ":" + img.imageTag.value)
    ensures img.imageTag.None? ==>
      r.0 == repoUri + "@" + img.imageDigest
      && r.1 == repoName + "@" + ShortDigest(img.imageDigest)
  {
    match img.imageTag
    case Some(tag) => (repoUri + ":" + tag, repoName + ":" + tag)
    case None => (repoUri + "@" + img.imageDigest, repoName + "@" + ShortDigest(img.imageDigest))
  }

  /** What copying the highlighted item exports: nothing when the selection
      is outside the filtered view; a repository's URI labelled with its
      name; an image's reference built from the detail view's context. */
  function GetCopyContent(vs: ViewState, data: ResourceData): (r: Option<(string, string)>)
    ensures vs.selectedIndex >= |FilterItems(data, vs.searchFilter)| ==> r.None?
    ensures vs.viewType.Custom? ==> r.None?
    ensures vs.viewType == List && vs.selectedIndex < |FilterItems(data, vs.searchFilter)| ==>
      var item := FilterItems(data, vs.searchFilter)[vs.selectedIndex];
      r == if item.Repository? then Some((item.repository.repositoryUri, item.repository.repositoryName)) else None
    ensures vs.viewType == Detail && vs.selectedIndex < |FilterItems(data, vs.searchFilter)| ==>
      var item := FilterItems(data, vs.searchFilter)[vs.selectedIndex];
      r == if item.Image? && vs.context.Some? then
             var (name, uri) := ContextParts(vs.context.value);
             Some(ImageCopyContent(name, uri, item.image))
           else None
  {
    var filtered := FilterItems(data, vs.searchFilter);
    if vs.selectedIndex >= |filtered| then None
    else
      match vs.viewType
      case List =>
        (match filtered[vs.selectedIndex]
         case Repository(repo) => Some((repo.repositoryUri, repo.repositoryName))
         case Image(_) => None)
      case Detail =>
        (match filtered[vs.selectedIndex]
         case Image(img) =>
           (match vs.context
            case Some(ctx) =>
              var (name, uri) := ContextParts(ctx);
              Some(ImageCopyContent(name, uri, img))
            case None => None)
         case Repository(_) => None)
      case Custom(_) => None
  }

  /** After drilling into a repository whose name and URI hold no
      separator, copying a tagged image of the detail view exports
      `uri:tag` labelled `name:tag`, whatever the detail view's selection
      and filter have become. */
  lemma CopyAfterEnter(vs: ViewState, data: ResourceData, detail: ViewState, images: ResourceData)
    requires HandleEnter(vs, data).Some?
    requires var repo := FilterItems(data, vs.searchFilter)[vs.selectedIndex].repository;
      Separator !in repo.repositoryName && Separator !in repo.repositoryUri
    requires detail == HandleEnter(vs, data).value.(selectedIndex := detail.selectedIndex, searchFilter := detail.searchFilter)
    requires detail.selectedIndex < |FilterItems(images, detail.searchFilter)|
    requires var item := FilterItems(images, detail.searchFilter)[detail.selectedIndex];
      item.Image? && item.image.imageTag.Some?
    ensures var repo := FilterItems(data, vs.searchFilter)[vs.selectedIndex].repository;
      var tag := FilterItems(images, detail.searchFilter)[detail.selectedIndex].image.imageTag.value;
      GetCopyContent(detail, images) == Some((repo.repositoryUri + ":" + tag, repo.repositoryName + ":" + tag))
  {
    var repo := FilterItems(data, vs.searchFilter)[vs.selectedIndex].repository;
    Text.SplitPacked(repo.repositoryName, Separator, repo.repositoryUri);
    Text.SplitNoSeparator(repo.repositoryUri, Separator);
    assert Text.Split(PackContext(repo), Separator) == [repo.repositoryName, repo.repositoryUri];
  }

  // ---------------------------------------------------------------------
  // Empty-state messages of the two tables

  /** The message a list or detail table shows in place of rows, chosen by
      the loading flag and whether a filter is active. */
  function EmptyMessage(viewType: ViewType, loading: bool, filter: string): (m: string)
    requires !viewType.Custom?
    ensures loading ==> m == (if viewType == List then "Loading ECR repositories..." else "Loading ECR images...")
    ensures !loading && filter != "" ==>
      m == (if viewType == List then "No repositories match the current filter" else "No images match the current filter")
    ensures !loading && filter == "" ==>
      m == (if viewType == List then "No ECR repositories found" else "No ECR images found")
  {
    match viewType
    case List =>
      if loading then "Loading ECR repositories..."
      else if filter != "" then "No repositories match the current filter"
      else "No ECR repositories found"
    case Detail =>
      if loading then "Loading ECR images..."
      else if filter != "" then "No images match the current filter"
      else "No ECR images found"
  }

  /** The empty-state message of a view, or None when the view has rows to
      show or draws nothing. */
  function EmptyStateMessage(vs: ViewState, data: ResourceData, loading: bool): (m: Option<string>)
    ensures m.Some? <==> !vs.viewType.Custom? && FilterItems(data, vs.searchFilter) == []
    ensures m.Some? ==> m.value == EmptyMessage(vs.viewType, loading, vs.searchFilter)
  {
    if vs.viewType.Custom? || FilterItems(data, vs.searchFilter) != [] then None
    else Some(EmptyMessage(vs.viewType, loading, vs.searchFilter))
  }

  /** An empty load shown without a filter reports "not found", never "no
      match", while a non-empty filter that hides everything reports "no
      match". */
  lemma EmptyLoadIsNotFound(vs: ViewState, data: ResourceData)
    requires !vs.viewType.Custom?
    ensures data.items == [] && vs.searchFilter == "" ==>
      EmptyStateMessage(vs, data, false) == Some(if vs.viewType == List then "No ECR repositories found" else "No ECR images found")
    ensures FilterItems(data, vs.searchFilter) == [] && vs.searchFilter != "" ==>
      EmptyStateMessage(vs, data, false)
        == Some(if vs.viewType == List then "No repositories match the current filter" else "No images match the current filter")
  {
  }

  /** The service's self-description. */
  function Metadata(): (m: ServiceMetadata)
    ensures m.id == "ecr" && m.command == "ecr"
  {
    ServiceMetadata("ecr", "Elastic Container Registry", "AWS Container Registry for Docker images", "ecr")
  }
}
