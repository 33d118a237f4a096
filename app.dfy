/** The controller: the terminal browser's state machine over input modes,
    the current view, the navigation stack, the search filter and the
    highlighted row, driven by key events and by the results of loads.

    Each transition is specified by a function over `AppState`, a value
    holding every field of the controller; the `App` class updates its
    fields in place and each of its methods promises that its new state is
    that function of its old one. The clock is an explicit millisecond
    timestamp `now`, and the clipboard's answer is an explicit input. */
module App {
  import opened Traits
  import Ecr

  datatype InputMode = Normal | Command | Search

  /** The two screens: the repository list and the images of one repository. */
  datatype CurrentView = RepositoryList | ImageList

  datatype KeyCode = Char(c: char) | Enter | Esc | Up | Down | Backspace | OtherKey

  /** The modifier set of a key press: none, exactly Control, or anything else. */
  datatype KeyModifiers = NoModifiers | Control | OtherModifiers

  datatype KeyEvent = KeyEvent(code: KeyCode, modifiers: KeyModifiers)

  /** How the clipboard responds to a copy: it cannot be opened, it refuses
      the text, or it takes it. */
  datatype Clipboard = Unavailable | Rejects | Accepts

  /** How long, in milliseconds, a "copied" status stays before it is
      cleared. */
  const CopyStatusLifetime: int := 3000

  const DefaultProfile: string := "default"
  const DefaultRegion: string := "us-east-1"

  datatype AppState = AppState(
    running: bool,
    inputMode: InputMode,
    currentView: CurrentView,
    inputBuffer: string,
    searchFilter: string,
    selectedIndex: nat,
    lastRefresh: int,
    ecrRepositories: seq<Ecr.EcrRepository>,
    ecrImages: seq<Ecr.EcrImage>,
    currentRepository: Option<string>,
    viewStack: seq<CurrentView>,
    loading: bool,
    errorMessage: Option<string>,
    copyStatus: Option<(string, int)>,
    awsProfile: string,
    awsRegion: string)

  /** The state a new controller starts in. */
  function InitialState(now: int): (s: AppState)
    ensures s.running && s.inputMode == Normal && s.currentView == RepositoryList
    ensures s.selectedIndex == 0 && s.searchFilter == "" && s.viewStack == []
    ensures SelectionInRange(s)
  {
    AppState(true, Normal, RepositoryList, "", "", 0, now, [], [], None, [], false, None, None,
             DefaultProfile, DefaultRegion)
  }

  // ---------------------------------------------------------------------
  // Filtered views and the selection bound

  /** The repositories a filter shows: all of them without a filter,
      otherwise those whose name contains it, ignoring case. */
  function FilterRepositories(repos: seq<Ecr.EcrRepository>, filter: string): (r: seq<Ecr.EcrRepository>)
    ensures filter == "" ==> r == repos
    ensures |r| <= |repos|
  {
    FilterData(repos, filter, Ecr.RepositoryMatches)
  }

  /** The images a filter shows: all of them without a filter, otherwise
      those with a tag that contains it, ignoring case. */
  function FilterImages(images: seq<Ecr.EcrImage>, filter: string): (r: seq<Ecr.EcrImage>)
    ensures filter == "" ==> r == images
    ensures |r| <= |images|
  {
    FilterData(images, filter, Ecr.ImageMatches)
  }

  lemma {:induction false} KeepRepositoriesAgrees(repos: seq<Ecr.EcrRepository>, filter: string)
    ensures Ecr.RepositoryItems(Keep(repos, filter, Ecr.RepositoryMatches))
         == Keep(Ecr.RepositoryItems(repos), filter, Ecr.MatchesFilter)
    decreases |repos|
  {
    if repos != [] {
      KeepRepositoriesAgrees(repos[1..], filter);
      assert Ecr.RepositoryItems(repos)[1..] == Ecr.RepositoryItems(repos[1..]);
      var rest := Keep(repos[1..], filter, Ecr.RepositoryMatches);
      assert Ecr.RepositoryItems([repos[0]] + rest) == [Ecr.Repository(repos[0])] + Ecr.RepositoryItems(rest);
    }
  }

  lemma {:induction false} KeepImagesAgrees(images: seq<Ecr.EcrImage>, filter: string)
    ensures Ecr.ImageItems(Keep(images, filter, Ecr.ImageMatches))
         == Keep(Ecr.ImageItems(images), filter, Ecr.MatchesFilter)
    decreases |images|
  {
    if images != [] {
      KeepImagesAgrees(images[1..], filter);
      assert Ecr.ImageItems(images)[1..] == Ecr.ImageItems(images[1..]);
      var rest := Keep(images[1..], filter, Ecr.ImageMatches);
      assert Ecr.ImageItems([images[0]] + rest) == [Ecr.Image(images[0])] + Ecr.ImageItems(rest);
    }
  }

  /** The repository list the controller shows is the service's filtered
      view of the same repositories. */
  lemma RepositoryFilterAgreesWithService(repos: seq<Ecr.EcrRepository>, filter: string)
    ensures Ecr.RepositoryItems(FilterRepositories(repos, filter))
         == Ecr.FilterItems(Ecr.ResourceData(Ecr.RepositoryItems(repos)), filter)
  {
    if filter != "" {
      KeepRepositoriesAgrees(repos, filter);
    }
  }

  /** The image list the controller shows is the service's filtered view of
      the same images. */
  lemma ImageFilterAgreesWithService(images: seq<Ecr.EcrImage>, filter: string)
    ensures Ecr.ImageItems(FilterImages(images, filter))
         == Ecr.FilterItems(Ecr.ResourceData(Ecr.ImageItems(images)), filter)
  {
    if filter != "" {
      KeepImagesAgrees(images, filter);
    }
  }

  /** The number of rows the current view shows. */
  function FilteredLength(s: AppState): nat
  {
    match s.currentView
    case RepositoryList => |FilterRepositories(s.ecrRepositories, s.searchFilter)|
    case ImageList => |FilterImages(s.ecrImages, s.searchFilter)|
  }

  /** `n - 1`, but never below zero. */
  function SaturatingPred(n: nat): (m: nat)
    ensures n == 0 ==> m == 0
    ensures n > 0 ==> m + 1 == n
  {
    if n == 0 then 0 else n - 1
  }

  /** The highest index the current view lets the selection reach. */
  function MaxIndex(s: AppState): nat
  {
    SaturatingPred(FilteredLength(s))
  }

  /** The selection is a row of the current view, or 0 when it is empty. */
  predicate SelectionInRange(s: AppState)
  {
    s.selectedIndex <= MaxIndex(s)
  }

  // ---------------------------------------------------------------------
  // Refresh, copy status and errors

  /** Drops a copy status that has been shown for the whole lifetime. */
  function ExpireCopyStatus(status: Option<(string, int)>, now: int): (r: Option<(string, int)>)
    ensures r.Some? ==> r == status && now - r.value.1 < CopyStatusLifetime
    ensures status.Some? && now - status.value.1 < CopyStatusLifetime ==> r == status
  {
    match status
    case None => None
    case Some((_, createdAt)) =>
      var elapsed := if now >= createdAt then now - createdAt else 0;
      if elapsed >= CopyStatusLifetime then None else status
  }

  /** Requests a reload: loading is set, the error is cleared, the refresh
      time is recorded and an expired copy status is dropped. */
  function Refreshed(s: AppState, now: int): (r: AppState)
    ensures r.loading && r.errorMessage == None && r.lastRefresh == now
    ensures r.copyStatus == ExpireCopyStatus(s.copyStatus, now)
    ensures r.(loading := s.loading, errorMessage := s.errorMessage, lastRefresh := s.lastRefresh,
               copyStatus := s.copyStatus) == s
  {
    s.(loading := true, lastRefresh := now, errorMessage := None,
       copyStatus := ExpireCopyStatus(s.copyStatus, now))
  }

  /** A failed load: loading ends and the cause is shown. */
  function ErrorSet(s: AppState, error: string): (r: AppState)
    ensures !r.loading && r.errorMessage == Some(error)
    ensures r.(loading := s.loading, errorMessage := s.errorMessage) == s
  {
    s.(loading := false, errorMessage := Some(error))
  }

  // ---------------------------------------------------------------------
  // Results of loads

  /** New repositories arrive: loading ends, the error clears, and the
      selection is pulled back into the repositories the filter keeps. */
  function RepositoriesSet(s: AppState, repos: seq<Ecr.EcrRepository>): (r: AppState)
    ensures r.ecrRepositories == repos && !r.loading && r.errorMessage == None
    ensures r.selectedIndex <= s.selectedIndex
  {
    var maxIndex := SaturatingPred(|FilterRepositories(repos, s.searchFilter)|);
    var t := s.(ecrRepositories := repos, loading := false, errorMessage := None);
    if t.selectedIndex > maxIndex then t.(selectedIndex := maxIndex) else t
  }

  /** The repositories are stored, loading ends, the error clears, the
      selection is kept when it is a row and clamped to the last row
      otherwise, and nothing else changes. */
  lemma RepositoriesSetEffect(s: AppState, repos: seq<Ecr.EcrRepository>)
    ensures var r, last := RepositoriesSet(s, repos), SaturatingPred(|FilterRepositories(repos, s.searchFilter)|);
      && r.ecrRepositories == repos && !r.loading && r.errorMessage == None
      && r.selectedIndex <= last
      && (s.selectedIndex <= last ==> r.selectedIndex == s.selectedIndex)
      && (s.selectedIndex > last ==> r.selectedIndex == last)
    ensures var r := RepositoriesSet(s, repos);
      r.(ecrRepositories := s.ecrRepositories, loading := s.loading,
         errorMessage := s.errorMessage, selectedIndex := s.selectedIndex) == s
    ensures SelectionInRange(s) || s.currentView == RepositoryList ==> SelectionInRange(RepositoriesSet(s, repos))
  {
  }

  /** New (already sorted) images arrive: loading ends, the error clears,
      and the selection is pulled back into the images the filter keeps. */
  function ImagesSet(s: AppState, images: seq<Ecr.EcrImage>): (r: AppState)
    ensures r.ecrImages == images && !r.loading && r.errorMessage == None
    ensures r.selectedIndex <= s.selectedIndex
  {
    var maxIndex := SaturatingPred(|FilterImages(images, s.searchFilter)|);
    var t := s.(ecrImages := images, loading := false, errorMessage := None);
    if t.selectedIndex > maxIndex then t.(selectedIndex := maxIndex) else t
  }

  /** The images are stored, loading ends, the error clears, the selection
      is kept when it is a row and clamped to the last row otherwise, and
      nothing else changes. */
  lemma ImagesSetEffect(s: AppState, images: seq<Ecr.EcrImage>)
    ensures var r, last := ImagesSet(s, images), SaturatingPred(|FilterImages(images, s.searchFilter)|);
      && r.ecrImages == images && !r.loading && r.errorMessage == None
      && r.selectedIndex <= last
      && (s.selectedIndex <= last ==> r.selectedIndex == s.selectedIndex)
      && (s.selectedIndex > last ==> r.selectedIndex == last)
    ensures var r := ImagesSet(s, images);
      r.(ecrImages := s.ecrImages, loading := s.loading,
         errorMessage := s.errorMessage, selectedIndex := s.selectedIndex) == s
    ensures SelectionInRange(s) || s.currentView == ImageList ==> SelectionInRange(ImagesSet(s, images))
  {
  }

  // ---------------------------------------------------------------------
  // Navigation

  /** Enter on the repository list with a highlighted repository drills into
      its images: the list is pushed, the repository remembered, selection
      and filter reset, and a reload requested. Otherwise nothing happens. */
  function EnterKey(s: AppState, now: int): (r: AppState)
    ensures r == s || (r.viewStack == s.viewStack + [RepositoryList] && r.currentView == ImageList)
  {
    match s.currentView
    case RepositoryList =>
      var repos := FilterRepositories(s.ecrRepositories, s.searchFilter);
      if s.selectedIndex < |repos| then
        Refreshed(s.(viewStack := s.viewStack + [s.currentView],
                     currentView := ImageList,
                     currentRepository := Some(repos[s.selectedIndex].repositoryName),
                     selectedIndex := 0,
                     searchFilter := ""), now)
      else s
    case ImageList => s
  }

  /** What Enter does: with a highlighted repository, the list is pushed, the
      image list shows, the repository is remembered, selection and filter
      reset and a reload is requested, and nothing else changes; otherwise
      nothing happens at all. */
  lemma EnterKeyEffect(s: AppState, now: int)
    ensures var r, repos := EnterKey(s, now), FilterRepositories(s.ecrRepositories, s.searchFilter);
      s.currentView == RepositoryList && s.selectedIndex < |repos| ==>
        && r.viewStack == s.viewStack + [RepositoryList]
        && r.currentView == ImageList
        && r.currentRepository == Some(repos[s.selectedIndex].repositoryName)
        && r.selectedIndex == 0 && r.searchFilter == ""
        && r.loading && r.errorMessage == None && r.lastRefresh == now
        && r.copyStatus == ExpireCopyStatus(s.copyStatus, now)
        && r.(viewStack := s.viewStack, currentView := s.currentView, currentRepository := s.currentRepository,
              selectedIndex := s.selectedIndex, searchFilter := s.searchFilter, loading := s.loading,
              errorMessage := s.errorMessage, lastRefresh := s.lastRefresh, copyStatus := s.copyStatus) == s
    ensures var repos := FilterRepositories(s.ecrRepositories, s.searchFilter);
      !(s.currentView == RepositoryList && s.selectedIndex < |repos|) ==> EnterKey(s, now) == s
  {
  }

  /** Esc goes back to the view on top of the stack, forgetting the
      repository and resetting selection and filter; with an empty stack it
      does nothing. */
  function EscapeKey(s: AppState): (r: AppState)
    ensures s.viewStack == [] ==> r == s
    ensures s.viewStack != [] ==>
      && r.viewStack == s.viewStack[..|s.viewStack| - 1]
      && r.currentView == s.viewStack[|s.viewStack| - 1]
      && r.currentRepository == None && r.selectedIndex == 0 && r.searchFilter == ""
      && r.(viewStack := s.viewStack, currentView := s.currentView, currentRepository := s.currentRepository,
            selectedIndex := s.selectedIndex, searchFilter := s.searchFilter) == s
  {
    if |s.viewStack| > 0 then
      s.(viewStack := s.viewStack[..|s.viewStack| - 1],
         currentView := s.viewStack[|s.viewStack| - 1],
         currentRepository := None,
         selectedIndex := 0,
         searchFilter := "")
    else s
  }

  /** Drilling in and coming back restores the view and the stack. */
  lemma EnterThenEscape(s: AppState, now: int)
    requires s.currentView == RepositoryList
    requires s.selectedIndex < |FilterRepositories(s.ecrRepositories, s.searchFilter)|
    ensures var r := EscapeKey(EnterKey(s, now));
      r.currentView == s.currentView && r.viewStack == s.viewStack
      && r.currentRepository == None && r.selectedIndex == 0 && r.searchFilter == ""
  {
    var t := EnterKey(s, now);
    assert t.viewStack[..|t.viewStack| - 1] == s.viewStack;
  }

  // ---------------------------------------------------------------------
  // Copying the highlighted row

  /** The URI of the first loaded repository called `name`, or a
      placeholder built from the name when none is loaded. */
  function RepositoryUriFor(repos: seq<Ecr.EcrRepository>, name: string): (uri: string)
    ensures (exists i :: 0 <= i < |repos| && repos[i].repositoryName == name) ==>
      exists i :: (&& 0 <= i < |repos| && repos[i].repositoryName == name && uri == repos[i].repositoryUri
                   && forall j :: 0 <= j < i ==> repos[j].repositoryName != name)
    ensures (forall i :: 0 <= i < |repos| ==> repos[i].repositoryName != name) ==>
      uri == "unknown.dkr.ecr.region.amazonaws.com/" + name
    decreases |repos|
  {
    if repos == [] then "unknown.dkr.ecr.region.amazonaws.com/" + name
    else if repos[0].repositoryName == name then repos[0].repositoryUri
    else
      var uri := RepositoryUriFor(repos[1..], name);
      assert forall i :: 1 <= i < |repos| ==> repos[i] == repos[1..][i - 1];
      uri
  }

  /** The clipboard text and label for the highlighted row: a repository's
      URI with its name, or an image's reference within the remembered
      repository; nothing when no row is highlighted or the repository is
      unknown. */
  function CopyContent(s: AppState): (r: Option<(string, string)>)
    ensures r.Some? ==> s.selectedIndex < FilteredLength(s)
    ensures s.currentView == RepositoryList && s.selectedIndex < FilteredLength(s) ==>
      var repo := FilterRepositories(s.ecrRepositories, s.searchFilter)[s.selectedIndex];
      r == Some((repo.repositoryUri + " for " + repo.repositoryName, repo.repositoryName))
    ensures s.currentView == ImageList ==> (r.Some? <==> s.selectedIndex < FilteredLength(s) && s.currentRepository.Some?)
    ensures s.currentView == ImageList && r.Some? ==>
      r.value == Ecr.ImageCopyContent(s.currentRepository.value,
                                      RepositoryUriFor(s.ecrRepositories, s.currentRepository.value),
                                      FilterImages(s.ecrImages, s.searchFilter)[s.selectedIndex])
  {
    match s.currentView
    case RepositoryList =>
      var repos := FilterRepositories(s.ecrRepositories, s.searchFilter);
      if s.selectedIndex < |repos| then
        var repo := repos[s.selectedIndex];
        Some((repo.repositoryUri + " for " + repo.repositoryName, repo.repositoryName))
      else None
    case ImageList =>
      var images := FilterImages(s.ecrImages, s.searchFilter);
      if s.selectedIndex < |images| then
        match s.currentRepository
        case Some(name) => Some(Ecr.ImageCopyContent(name, RepositoryUriFor(s.ecrRepositories, name), images[s.selectedIndex]))
        case None => None
      else None
  }

  /** The status line after copying `shown`. */
  function CopiedMessage(shown: string): (m: string)
    ensures |m| == |shown| + 9
    ensures m[..2] == "\U{2713} " && m[2..|m| - 7] == shown && m[|m| - 7..] == " copied"
  {
    "\U{2713} " + shown + " copied"
  }

  /** Copying: when the clipboard takes the text, the status records the
      label and the time; in every other case nothing changes. */
  function Copied(s: AppState, now: int, clipboard: Clipboard): (r: AppState)
    ensures clipboard == Accepts && CopyContent(s).Some? ==>
      r == s.(copyStatus := Some((CopiedMessage(CopyContent(s).value.1), now)))
    ensures clipboard != Accepts || CopyContent(s).None? ==> r == s
  {
    if clipboard == Unavailable then s
    else
      match CopyContent(s)
      case None => s
      case Some((_, shown)) =>
        if clipboard == Accepts then s.(copyStatus := Some((CopiedMessage(shown), now))) else s
  }

  // ---------------------------------------------------------------------
  // Key handling

  function DropLast(s: string): (r: string)
    ensures |s| > 0 ==> r == s[..|s| - 1]
    ensures |s| == 0 ==> r == s
  {
    if |s| > 0 then s[..|s| - 1] else s
  }

  /** A typed command: quit, switch to the repository list, or refresh;
      anything else is ignored. */
  function Executed(s: AppState, now: int): (r: AppState)
    ensures s.inputBuffer in {"quit", "q"} ==> r == s.(running := false)
    ensures s.inputBuffer in {"refresh", "r"} ==> r == Refreshed(s, now)
    ensures s.inputBuffer == "ecr" ==>
      r == Refreshed(s.(currentView := RepositoryList, selectedIndex := 0), now)
    ensures s.inputBuffer !in {"quit", "q", "ecr", "refresh", "r"} ==> r == s
  {
    var command := s.inputBuffer;
    if command == "quit" || command == "q" then s.(running := false)
    else if command == "ecr" then Refreshed(s.(currentView := RepositoryList, selectedIndex := 0), now)
    else if command == "refresh" || command == "r" then Refreshed(s, now)
    else s
  }

  /** A key typed in command mode. */
  function CommandKey(s: AppState, key: KeyEvent, now: int): (r: AppState)
    ensures key.code == Enter ==> r.inputMode == Normal && r.inputBuffer == ""
    ensures key.code == Enter ==> r == Executed(s, now).(inputMode := Normal, inputBuffer := "")
    ensures key.code == Esc ==> r == s.(inputMode := Normal, inputBuffer := "")
    ensures key.code.Char? ==> r == s.(inputBuffer := s.inputBuffer + [key.code.c])
    ensures key.code == Backspace ==> r == s.(inputBuffer := DropLast(s.inputBuffer))
    ensures key.code in {Up, Down, OtherKey} ==> r == s
  {
    match key.code
    case Esc => s.(inputMode := Normal, inputBuffer := "")
    case Enter => Executed(s, now).(inputMode := Normal, inputBuffer := "")
    case Char(c) => s.(inputBuffer := s.inputBuffer + [c])
    case Backspace => s.(inputBuffer := DropLast(s.inputBuffer))
    case _ => s
  }

  /** A key typed in search mode: every edit makes the filter the buffer and
      resets the selection; Enter keeps the filter, Esc clears it. */
  function SearchKey(s: AppState, key: KeyEvent): (r: AppState)
    ensures (key.code.Char? || key.code == Backspace) ==>
      r.searchFilter == r.inputBuffer && r.selectedIndex == 0 && r.inputMode == s.inputMode
    ensures key.code.Char? ==> r.inputBuffer == s.inputBuffer + [key.code.c]
    ensures key.code == Backspace ==> r.inputBuffer == DropLast(s.inputBuffer)
    ensures key.code == Esc ==>
      r.inputMode == Normal && r.inputBuffer == "" && r.searchFilter == "" && r.selectedIndex == 0
    ensures key.code == Enter ==>
      r.inputMode == Normal && r.searchFilter == s.inputBuffer && r.inputBuffer == "" && r.selectedIndex == 0
    ensures r.(inputMode := s.inputMode, inputBuffer := s.inputBuffer, searchFilter := s.searchFilter,
               selectedIndex := s.selectedIndex) == s
    ensures key.code in {Up, Down, OtherKey} ==> r == s
  {
    match key.code
    case Esc => s.(inputMode := Normal, inputBuffer := "", searchFilter := "", selectedIndex := 0)
    case Enter => s.(inputMode := Normal, searchFilter := s.inputBuffer, inputBuffer := "", selectedIndex := 0)
    case Char(c) =>
      var buffer := s.inputBuffer + [c];
      s.(inputBuffer := buffer, searchFilter := buffer, selectedIndex := 0)
    case Backspace =>
      var buffer := DropLast(s.inputBuffer);
      s.(inputBuffer := buffer, searchFilter := buffer, selectedIndex := 0)
    case _ => s
  }

  /** What a key does in normal mode. */
  datatype NormalAction =
    | Quit | Refresh | StartCommand | StartSearch | Open | Back | MoveUp | MoveDown | Copy | Ignore

  /** The normal-mode key bindings, tried in order: Control-c and q quit,
      Control-r and r refresh, `:` and `/` open the command and search
      prompts, Enter drills in, Esc goes back, Up/k and Down/j move (the
      arrows whatever the modifiers), c copies, and any other key is
      ignored. */
  function Binding(key: KeyEvent): (a: NormalAction)
    ensures a == Quit <==> key == KeyEvent(Char('c'), Control) || key == KeyEvent(Char('q'), NoModifiers)
    ensures a == Refresh <==> key == KeyEvent(Char('r'), Control) || key == KeyEvent(Char('r'), NoModifiers)
    ensures a == StartCommand <==> key == KeyEvent(Char(':'), NoModifiers)
    ensures a == StartSearch <==> key == KeyEvent(Char('/'), NoModifiers)
    ensures a == Open <==> key == KeyEvent(Enter, NoModifiers)
    ensures a == Back <==> key == KeyEvent(Esc, NoModifiers)
    ensures a == MoveUp <==> key.code == Up || key == KeyEvent(Char('k'), NoModifiers)
    ensures a == MoveDown <==> key.code == Down || key == KeyEvent(Char('j'), NoModifiers)
    ensures a == Copy <==> key == KeyEvent(Char('c'), NoModifiers)
  {
    match (key.code, key.modifiers)
    case (Char('c'), Control) => Quit
    case (Char('r'), Control) => Refresh
    case (Char('q'), NoModifiers) => Quit
    case (Char(':'), NoModifiers) => StartCommand
    case (Char('/'), NoModifiers) => StartSearch
    case (Enter, NoModifiers) => Open
    case (Esc, NoModifiers) => Back
    case (Up, _) => MoveUp
    case (Char('k'), NoModifiers) => MoveUp
    case (Down, _) => MoveDown
    case (Char('j'), NoModifiers) => MoveDown
    case (Char('r'), NoModifiers) => Refresh
    case (Char('c'), NoModifiers) => Copy
    case _ => Ignore
  }

  /** Carries out a normal-mode action. Moving stops at both ends of the
      current view. */
  function Perform(s: AppState, a: NormalAction, now: int, clipboard: Clipboard): (r: AppState)
    ensures a == MoveUp ==> r.selectedIndex == if s.selectedIndex > 0 then s.selectedIndex - 1 else 0
    ensures a == MoveDown ==>
      r.selectedIndex == if s.selectedIndex < MaxIndex(s) then s.selectedIndex + 1 else s.selectedIndex
    ensures a in {MoveUp, MoveDown} ==> r == s.(selectedIndex := r.selectedIndex)
    ensures a == Quit ==> r == s.(running := false)
    ensures a == Refresh ==> r == Refreshed(s, now)
    ensures a == Open ==> r == EnterKey(s, now)
    ensures a == Back ==> r == EscapeKey(s)
    ensures a == Copy ==> r == Copied(s, now, clipboard)
    ensures a == StartCommand ==> r == s.(inputMode := Command, inputBuffer := "")
    ensures a == StartSearch ==> r == s.(inputMode := Search, inputBuffer := "")
    ensures a == Ignore ==> r == s
  {
    match a
    case Quit => s.(running := false)
    case Refresh => Refreshed(s, now)
    case StartCommand => s.(inputMode := Command, inputBuffer := "")
    case StartSearch => s.(inputMode := Search, inputBuffer := "")
    case Open => EnterKey(s, now)
    case Back => EscapeKey(s)
    case MoveUp => if s.selectedIndex > 0 then s.(selectedIndex := s.selectedIndex - 1) else s
    case MoveDown => if s.selectedIndex < MaxIndex(s) then s.(selectedIndex := s.selectedIndex + 1) else s
    case Copy => Copied(s, now, clipboard)
    case Ignore => s
  }

  /** A key pressed in normal mode. No key changes the loaded data, the
      AWS settings or the typed input, except that opening a prompt empties
      it; selection, view and filter change only by moving, refreshing,
      drilling in and going back. */
  function NormalKey(s: AppState, key: KeyEvent, now: int, clipboard: Clipboard): (r: AppState)
    ensures SameDataAndSettings(s, r)
    ensures Binding(key) !in {StartCommand, StartSearch} ==> r.inputBuffer == s.inputBuffer && r.inputMode == s.inputMode
    ensures Binding(key) in {StartCommand, StartSearch} ==> r.inputBuffer == ""
    ensures Binding(key) in {Quit, Refresh, StartCommand, StartSearch, Copy, Ignore} ==> SameRows(s, r) && r.selectedIndex == s.selectedIndex
  {
    Perform(s, Binding(key), now, clipboard)
  }

  /** One key event, handled by the current input mode. No key event
      changes the loaded data or the AWS settings, and only normal mode
      drills in or goes back. */
  function KeyStep(s: AppState, key: KeyEvent, now: int, clipboard: Clipboard): (r: AppState)
    ensures SameDataAndSettings(s, r)
    ensures s.inputMode != Normal ==> r.viewStack == s.viewStack && r.currentRepository == s.currentRepository
  {
    match s.inputMode
    case Normal => NormalKey(s, key, now, clipboard)
    case Command => CommandKey(s, key, now)
    case Search => SearchKey(s, key)
  }

  /** The loaded data and the AWS settings are unchanged. */
  predicate SameDataAndSettings(s: AppState, r: AppState)
  {
    && r.ecrRepositories == s.ecrRepositories && r.ecrImages == s.ecrImages
    && r.awsProfile == s.awsProfile && r.awsRegion == s.awsRegion
  }

  /** The fields the selection bound depends on are unchanged. */
  predicate SameRows(s: AppState, r: AppState)
  {
    && r.currentView == s.currentView && r.searchFilter == s.searchFilter
    && r.ecrRepositories == s.ecrRepositories && r.ecrImages == s.ecrImages
  }

  lemma PerformKeepsSelectionInRange(s: AppState, a: NormalAction, now: int, clipboard: Clipboard)
    requires SelectionInRange(s)
    ensures SelectionInRange(Perform(s, a, now, clipboard))
  {
    var r := Perform(s, a, now, clipboard);
    match a
    case Open =>
      if r != s {
        assert r.selectedIndex == 0;
      }
    case Back =>
      if r != s {
        assert r.selectedIndex == 0;
      }
    case MoveDown =>
      assert SameRows(s, r) && MaxIndex(r) == MaxIndex(s);
    case MoveUp =>
      assert SameRows(s, r) && MaxIndex(r) == MaxIndex(s);
    case Refresh =>
      assert SameRows(s, r) && r.selectedIndex == s.selectedIndex;
    case Copy =>
      assert SameRows(s, r) && r.selectedIndex == s.selectedIndex;
    case _ =>
      assert SameRows(s, r) && r.selectedIndex == s.selectedIndex;
  }

  lemma CommandKeyKeepsSelectionInRange(s: AppState, key: KeyEvent, now: int)
    requires SelectionInRange(s)
    ensures SelectionInRange(CommandKey(s, key, now))
  {
    var r := CommandKey(s, key, now);
    if key.code == Enter && s.inputBuffer == "ecr" {
      assert r.selectedIndex == 0;
    } else {
      assert SameRows(s, r) && r.selectedIndex == s.selectedIndex;
    }
  }

  /** No key event takes the selection out of the current view. */
  lemma KeyStepKeepsSelectionInRange(s: AppState, key: KeyEvent, now: int, clipboard: Clipboard)
    requires SelectionInRange(s)
    ensures SelectionInRange(KeyStep(s, key, now, clipboard))
  {
    match s.inputMode
    case Normal => PerformKeepsSelectionInRange(s, Binding(key), now, clipboard);
    case Command => CommandKeyKeepsSelectionInRange(s, key, now);
    case Search =>
  }

  /** One key press of a session: the key, the time it is handled at, and
      how the clipboard would answer a copy at that moment. */
  datatype KeyPress = KeyPress(key: KeyEvent, at: int, clipboard: Clipboard)

  /** Handles a session's key presses in order, each at its own time and
      with its own clipboard answer. */
  function RunKeys(s: AppState, presses: seq<KeyPress>): AppState
    decreases |presses|
  {
    if presses == [] then s
    else RunKeys(KeyStep(s, presses[0].key, presses[0].at, presses[0].clipboard), presses[1..])
  }

  /** However many keys are pressed, whenever, and whatever the clipboard
      answers, the selection stays in the view. */
  lemma {:induction false} RunKeysKeepsSelectionInRange(s: AppState, presses: seq<KeyPress>)
    requires SelectionInRange(s)
    ensures SelectionInRange(RunKeys(s, presses))
    decreases |presses|
  {
    if presses != [] {
      var p := presses[0];
      KeyStepKeepsSelectionInRange(s, p.key, p.at, p.clipboard);
      RunKeysKeepsSelectionInRange(KeyStep(s, p.key, p.at, p.clipboard), presses[1..]);
    }
  }

  /** In normal mode, Enter opens, Esc goes back, r and Control-r request a
      reload, and c copies the highlighted row. */
  lemma NormalKeyStep(s: AppState, key: KeyEvent, now: int, clipboard: Clipboard)
    requires s.inputMode == Normal
    ensures key == KeyEvent(Enter, NoModifiers) ==> KeyStep(s, key, now, clipboard) == EnterKey(s, now)
    ensures key == KeyEvent(Esc, NoModifiers) ==> KeyStep(s, key, now, clipboard) == EscapeKey(s)
    ensures key == KeyEvent(Char('r'), NoModifiers) ==> KeyStep(s, key, now, clipboard) == Refreshed(s, now)
    ensures key == KeyEvent(Char('r'), Control) ==> KeyStep(s, key, now, clipboard) == Refreshed(s, now)
    ensures key == KeyEvent(Char('c'), NoModifiers) ==> KeyStep(s, key, now, clipboard) == Copied(s, now, clipboard)
  {
  }

  /** Pressing Enter and then Esc in normal mode on a highlighted repository,
      at any two times and whatever the clipboard, comes back to the
      repository list with the stack as it was. */
  lemma EnterEscapeKeysRestoreView(s: AppState, enterAt: int, escAt: int, clipboard1: Clipboard, clipboard2: Clipboard)
    requires s.inputMode == Normal && s.currentView == RepositoryList
    requires s.selectedIndex < FilteredLength(s)
    ensures var r := RunKeys(s, [KeyPress(KeyEvent(Enter, NoModifiers), enterAt, clipboard1),
                                 KeyPress(KeyEvent(Esc, NoModifiers), escAt, clipboard2)]);
      r.currentView == RepositoryList && r.viewStack == s.viewStack && r.inputMode == Normal
  {
    var presses := [KeyPress(KeyEvent(Enter, NoModifiers), enterAt, clipboard1),
                    KeyPress(KeyEvent(Esc, NoModifiers), escAt, clipboard2)];
    var enter, esc := KeyEvent(Enter, NoModifiers), KeyEvent(Esc, NoModifiers);
    var t := EnterKey(s, enterAt);
    NormalKeyStep(s, enter, enterAt, clipboard1);
    EnterKeyEffect(s, enterAt);
    NormalKeyStep(t, esc, escAt, clipboard2);
    var rest := [KeyPress(esc, escAt, clipboard2)];
    assert presses[1..] == rest && rest[1..] == [];
    assert RunKeys(t, rest) == RunKeys(EscapeKey(t), []);
    assert RunKeys(s, presses) == RunKeys(t, rest);
    EnterThenEscape(s, enterAt);
  }

  // ---------------------------------------------------------------------
  // The controller object

  class App {
    var running: bool
    var inputMode: InputMode
    var currentView: CurrentView
    var inputBuffer: string
    var searchFilter: string
    var selectedIndex: nat
    var lastRefresh: int
    var ecrRepositories: seq<Ecr.EcrRepository>
    var ecrImages: seq<Ecr.EcrImage>
    var currentRepository: Option<string>
    var viewStack: seq<CurrentView>
    var loading: bool
    var errorMessage: Option<string>
    var copyStatus: Option<(string, int)>
    var awsProfile: string
    var awsRegion: string

    /** All fields as one value. */
    function State(): AppState
      reads this
    {
      AppState(running, inputMode, currentView, inputBuffer, searchFilter, selectedIndex, lastRefresh,
               ecrRepositories, ecrImages, currentRepository, viewStack, loading, errorMessage,
               copyStatus, awsProfile, awsRegion)
    }

    constructor (now: int)
      ensures State() == InitialState(now)
    {
      running := true;
      inputMode := Normal;
      currentView := RepositoryList;
      inputBuffer := "";
      searchFilter := "";
      selectedIndex := 0;
      lastRefresh := now;
      ecrRepositories := [];
      ecrImages := [];
      currentRepository := None;
      viewStack := [];
      loading := false;
      errorMessage := None;
      copyStatus := None;
      awsProfile := DefaultProfile;
      awsRegion := DefaultRegion;
    }

    constructor WithAwsConfig(profile: string, region: string, now: int)
      ensures State() == InitialState(now).(awsProfile := profile, awsRegion := region)
    {
      running := true;
      inputMode := Normal;
      currentView := RepositoryList;
      inputBuffer := "";
      searchFilter := "";
      selectedIndex := 0;
      lastRefresh := now;
      ecrRepositories := [];
      ecrImages := [];
      currentRepository := None;
      viewStack := [];
      loading := false;
      errorMessage := None;
      copyStatus := None;
      awsProfile := profile;
      awsRegion := region;
    }

    /** The repositories the list shows: all of them without a filter,
        otherwise exactly those whose name contains the filter, ignoring
        case; always in their loaded order. */
    function FilteredRepositories(): (r: seq<Ecr.EcrRepository>)
      reads this
      ensures searchFilter == "" ==> r == ecrRepositories
      ensures searchFilter != "" ==> forall x :: x in r <==> x in ecrRepositories && Ecr.RepositoryMatches(x, searchFilter)
      ensures Subsequence(r, ecrRepositories)
    {
      FilterDataKeepsExactlyAccepted(ecrRepositories, searchFilter, Ecr.RepositoryMatches);
      FilterRepositories(ecrRepositories, searchFilter)
    }

    /** The images the list shows: all of them without a filter, otherwise
        exactly those with a tag that contains the filter, ignoring case;
        always in their loaded order. */
    function FilteredImages(): (r: seq<Ecr.EcrImage>)
      reads this
      ensures searchFilter == "" ==> r == ecrImages
      ensures searchFilter != "" ==> forall x :: x in r <==> x in ecrImages && Ecr.ImageMatches(x, searchFilter)
      ensures Subsequence(r, ecrImages)
    {
      FilterDataKeepsExactlyAccepted(ecrImages, searchFilter, Ecr.ImageMatches);
      FilterImages(ecrImages, searchFilter)
    }

    method HandleKeyEvent(key: KeyEvent, now: int, clipboard: Clipboard)
      modifies this
      ensures State() == KeyStep(old(State()), key, now, clipboard)
    {
      match inputMode {
        case Normal => HandleNormalMode(key, now, clipboard);
        case Command => HandleCommandMode(key, now);
        case Search => HandleSearchMode(key);
      }
    }

    method HandleNormalMode(key: KeyEvent, now: int, clipboard: Clipboard)
      modifies this
      ensures State() == NormalKey(old(State()), key, now, clipboard)
    {
      match Binding(key) {
        case Quit => running := false;
        case Refresh => RefreshData(now);
        case StartCommand =>
          inputMode := Command;
          inputBuffer := "";
        case StartSearch =>
          inputMode := Search;
          inputBuffer := "";
        case Open => HandleEnterKey(now);
        case Back => HandleEscapeKey();
        case MoveUp =>
          if selectedIndex > 0 {
            selectedIndex := selectedIndex - 1;
          }
        case MoveDown =>
          var maxIndex := match currentView
            case RepositoryList => SaturatingPred(|FilteredRepositories()|)
            case ImageList => SaturatingPred(|FilteredImages()|);
          if selectedIndex < maxIndex {
            selectedIndex := selectedIndex + 1;
          }
        case Copy => CopySelectedToClipboard(now, clipboard);
        case Ignore =>
      }
    }

    method HandleCommandMode(key: KeyEvent, now: int)
      modifies this`inputMode, this`inputBuffer, this`running, this`currentView, this`selectedIndex,
               this`loading, this`lastRefresh, this`errorMessage, this`copyStatus
      ensures State() == CommandKey(old(State()), key, now)
    {
      match key.code {
        case Esc =>
          inputMode := Normal;
          inputBuffer := "";
        case Enter =>
          ExecuteCommand(now);
          inputMode := Normal;
          inputBuffer := "";
        case Char(c) => inputBuffer := inputBuffer + [c];
        case Backspace => inputBuffer := DropLast(inputBuffer);
        case _ =>
      }
    }

    method HandleSearchMode(key: KeyEvent)
      modifies this`inputMode, this`inputBuffer, this`searchFilter, this`selectedIndex
      ensures State() == SearchKey(old(State()), key)
    {
      match key.code {
        case Esc =>
          inputMode := Normal;
          inputBuffer := "";
          searchFilter := "";
          selectedIndex := 0;
        case Enter =>
          inputMode := Normal;
          searchFilter := inputBuffer;
          inputBuffer := "";
          selectedIndex := 0;
        case Char(c) =>
          inputBuffer := inputBuffer + [c];
          searchFilter := inputBuffer;
          selectedIndex := 0;
        case Backspace =>
          inputBuffer := DropLast(inputBuffer);
          searchFilter := inputBuffer;
          selectedIndex := 0;
        case _ =>
      }
    }

    method ExecuteCommand(now: int)
      modifies this`running, this`currentView, this`selectedIndex, this`loading, this`lastRefresh, this`errorMessage, this`copyStatus
      ensures State() == Executed(old(State()), now)
    {
      if inputBuffer == "quit" || inputBuffer == "q" {
        running := false;
      } else if inputBuffer == "ecr" {
        currentView := RepositoryList;
        selectedIndex := 0;
        RefreshData(now);
      } else if inputBuffer == "refresh" || inputBuffer == "r" {
        RefreshData(now);
      }
    }

    method RefreshData(now: int)
      modifies this`loading, this`lastRefresh, this`errorMessage, this`copyStatus
      ensures State() == Refreshed(old(State()), now)
    {
      loading := true;
      lastRefresh := now;
      errorMessage := None;
      ClearExpiredCopyStatus(now);
    }

    method ClearExpiredCopyStatus(now: int)
      modifies this`copyStatus
      ensures State() == old(State()).(copyStatus := ExpireCopyStatus(old(copyStatus), now))
    {
      match copyStatus {
        case Some((_, copiedAt)) =>
          var elapsed := if now >= copiedAt then now - copiedAt else 0;
          if elapsed >= CopyStatusLifetime {
            copyStatus := None;
          }
        case None =>
      }
    }

    method SetEcrRepositories(repositories: seq<Ecr.EcrRepository>)
      modifies this`ecrRepositories, this`loading, this`errorMessage, this`selectedIndex
      ensures State() == RepositoriesSet(old(State()), repositories)
    {
      ghost var s0 := State();
      ecrRepositories := repositories;
      loading := false;
      errorMessage := None;
      assert State() == s0.(ecrRepositories := repositories, loading := false, errorMessage := None);
      var maxIndex := SaturatingPred(|FilteredRepositories()|);
      if selectedIndex > maxIndex {
        selectedIndex := maxIndex;
      }
    }

    method SetError(error: string)
      modifies this`loading, this`errorMessage
      ensures State() == ErrorSet(old(State()), error)
    {
      loading := false;
      errorMessage := Some(error);
    }

    method HandleEnterKey(now: int)
      modifies this`viewStack, this`currentView, this`currentRepository, this`selectedIndex, this`searchFilter,
               this`loading, this`lastRefresh, this`errorMessage, this`copyStatus
      ensures State() == EnterKey(old(State()), now)
    {
      match currentView {
        case RepositoryList =>
          var repositories := FilteredRepositories();
          if selectedIndex < |repositories| {
            ghost var s0 := State();
            var repoName := repositories[selectedIndex].repositoryName;
            viewStack := viewStack + [currentView];
            currentView := ImageList;
            currentRepository := Some(repoName);
            selectedIndex := 0;
            searchFilter := "";
            assert State() == s0.(viewStack := s0.viewStack + [s0.currentView], currentView := ImageList,
                                  currentRepository := Some(repoName), selectedIndex := 0, searchFilter := "");
            RefreshData(now);
          }
        case ImageList =>
      }
    }

    method HandleEscapeKey()
      modifies this`viewStack, this`currentView, this`currentRepository, this`selectedIndex, this`searchFilter
      ensures State() == EscapeKey(old(State()))
    {
      if |viewStack| > 0 {
        var previousView := viewStack[|viewStack| - 1];
        viewStack := viewStack[..|viewStack| - 1];
        currentView := previousView;
        currentRepository := None;
        selectedIndex := 0;
        searchFilter := "";
      }
    }

    /** Sorts the images latest push first, undated last, stores them, and
        pulls the selection back into the images the filter keeps. */
    method SetEcrImages(images: seq<Ecr.EcrImage>)
      modifies this`ecrImages, this`loading, this`errorMessage, this`selectedIndex
      ensures multiset(ecrImages) == multiset(images)
      ensures Ecr.DatedFirst(ecrImages) && Ecr.NewestFirst(ecrImages)
      ensures State() == ImagesSet(old(State()), ecrImages)
    {
      var sorted := Ecr.SortImages(images);
      ghost var s0 := State();
      ecrImages := sorted;
      loading := false;
      errorMessage := None;
      assert State() == s0.(ecrImages := sorted, loading := false, errorMessage := None);
      var maxIndex := SaturatingPred(|FilteredImages()|);
      if selectedIndex > maxIndex {
        selectedIndex := maxIndex;
      }
    }

    method CopySelectedToClipboard(now: int, clipboard: Clipboard)
      modifies this`copyStatus
      ensures State() == Copied(old(State()), now, clipboard)
    {
      if clipboard == Unavailable {
        return;
      }
      var content := CopyContent(State());
      if content.None? {
        return;
      }
      var (_, shown) := content.value;
      if clipboard == Accepts {
        copyStatus := Some((CopiedMessage(shown), now));
      }
    }
  }
}
