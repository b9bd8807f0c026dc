/**
 * The preview's own navigation stack
 * (crates/preview-proxy/src/devtools_script.js): a script that only sees the
 * current address rebuilds where the browser is in its history.
 */
module NavStack {
  import opened Wrappers

  /** An address; the browser's is never empty, and empty ones are neither loaded nor gone to. */
  type Url = s: string | s != "" witness "about:blank"

  datatype Mode = Auto | Push | Replace

  /** `normalizeUrl`, which drops the refresh parameter: any function of the address. */
  type Normalize = Url -> Url

  /** `navStack` and `navIndex` */
  datatype Nav = Nav(stack: seq<Url>, index: int)

  // ----- specification -----

  /** The index the scan loop stops at: the first entry that normalizes to the same address. */
  function FirstMatch(norm: Normalize, stack: seq<Url>, href: Url): Option<nat> {
    if stack == [] then None
    else if norm(stack[0]) == norm(href) then Some(0)
    else
      match FirstMatch(norm, stack[1..], href)
      case None => None
      case Some(i) => Some(i + 1)
  }

  /** Where an address is looked for: here, one ahead, one behind, then from the start. */
  function Locate(norm: Normalize, s: Nav, href: Url): Option<nat> {
    if 0 <= s.index < |s.stack| && norm(s.stack[s.index]) == norm(href) then Some(s.index)
    else if 0 <= s.index + 1 < |s.stack| && norm(s.stack[s.index + 1]) == norm(href) then Some(s.index + 1)
    else if 0 < s.index <= |s.stack| && norm(s.stack[s.index - 1]) == norm(href) then Some(s.index - 1)
    else FirstMatch(norm, s.stack, href)
  }

  /** `navStack.slice(0, k)` for an index the script keeps at -1 or above. */
  function Slice(stack: seq<Url>, k: int): seq<Url> {
    if k <= 0 then [] else if k <= |stack| then stack[..k] else stack
  }

  function Pushed(s: Nav, href: Url): Nav {
    var stack := Slice(s.stack, s.index + 1) + [href];
    Nav(stack, |stack| - 1)
  }

  function Replaced(s: Nav, href: Url): Nav {
    if 0 <= s.index < |s.stack| then Nav(s.stack[s.index := href], s.index) else Nav([href], 0)
  }

  function Ensured(norm: Normalize, s: Nav, href: Url, mode: Mode): Nav {
    match mode
    case Replace => Replaced(s, href)
    case Push => Pushed(s, href)
    case Auto =>
      match Locate(norm, s, href)
      case None => Pushed(s, href)
      case Some(i) => if i < |s.stack| then Nav(s.stack[i := href], i) else s
  }

  /** What session storage holds. */
  datatype SavedEntry = SavedText(text: string) | SavedUrl(url: string) | OtherEntry

  datatype Saved = Missing | Unreadable | SavedState(stack: Option<seq<SavedEntry>>, index: Option<int>)

  function SavedUrls(entries: seq<SavedEntry>): seq<Url> {
    if entries == [] then []
    else
      (match entries[0]
       case SavedText(u) => if u != "" then [u] else []
       case SavedUrl(u) => if u != "" then [u] else []
       case OtherEntry => []) + SavedUrls(entries[1..])
  }

  lemma SavedUrlsAt(entries: seq<SavedEntry>, i: nat, urls: seq<Url>)
    requires i < |entries|
    ensures urls + SavedUrls(entries[i..]) ==
              (match entries[i]
               case SavedText(u) => if u != "" then urls + [u] else urls
               case SavedUrl(u) => if u != "" then urls + [u] else urls
               case OtherEntry => urls) + SavedUrls(entries[i + 1..])
  {
    assert entries[i..][1..] == entries[i + 1..];
  }

  function Loaded(saved: Saved): Nav {
    match saved
    case SavedState(stack, index) =>
      var urls := if stack.Some? then SavedUrls(stack.value) else [];
      var i := if index.Some? then index.value else -1;
      Nav(urls, if i >= |urls| then |urls| - 1 else i)
    case _ => Nav([], -1)
  }

  /** What `initializeNavigation` makes of the loaded state before it looks at the address. */
  function Opened(saved: Saved, href: Url): Nav {
    var s := Loaded(saved);
    if s.stack == [] then Nav([href], 0)
    else if s.index < 0 || s.index >= |s.stack| then Nav(s.stack, |s.stack| - 1)
    else s
  }

  /** `initializeNavigation` */
  function Initialized(norm: Normalize, saved: Saved, href: Url): Nav {
    Ensured(norm, Opened(saved, href), href, Auto)
  }

  function SavedTexts(stack: seq<Url>): seq<SavedEntry> {
    if stack == [] then [] else [SavedText(stack[0])] + SavedTexts(stack[1..])
  }

  function Save(s: Nav): Saved {
    SavedState(Some(SavedTexts(s.stack)), Some(s.index))
  }

  lemma {:induction false} UrlsOfTexts(stack: seq<Url>)
    ensures SavedUrls(SavedTexts(stack)) == stack
  {
    if stack != [] {
      UrlsOfTexts(stack[1..]);
      assert SavedTexts(stack)[1..] == SavedTexts(stack[1..]);
      assert [stack[0]] + stack[1..] == stack;
    }
  }

  /** A document goes on from the stack that was saved, at the index that was saved or, if that is outside it, at its end. */
  lemma OpensAtSaved(stack: seq<Url>, index: Option<int>, href: Url)
    ensures stack != [] ==>
              Opened(SavedState(Some(SavedTexts(stack)), index), href)
              == Nav(stack, if index.Some? && 0 <= index.value < |stack| then index.value else |stack| - 1)
    ensures stack == [] ==> Opened(SavedState(Some(SavedTexts(stack)), index), href) == Nav([href], 0)
    ensures Opened(SavedState(None, index), href) == Nav([href], 0)
  {
    UrlsOfTexts(stack);
  }

  // ----- session storage -----

  /**
   * What the script reads off an address: its normal form, its origin, and its
   * `_refresh` parameter, empty if there is none. A browser may deny an origin
   * its session storage.
   */
  datatype Site = Site(norm: Normalize, origin: Url -> string, refresh: Url -> string, keeps: string -> bool)

  /** Session storage is per origin; within one, a state is kept under a session. */
  datatype Key = Key(origin: string, session: string)

  /** Each origin's session pointer, and the states. */
  datatype Storage = Storage(pointers: map<string, string>, states: map<Key, Saved>)

  const DefaultSession: string := "default"

  /** `getNavStorageKey`: the address's refresh parameter, or else the pointer the last one left. */
  function KeyAt(site: Site, store: Storage, href: Url): Key {
    var origin := site.origin(href);
    Key(origin,
        if !site.keeps(origin) then DefaultSession
        else if site.refresh(href) != "" then site.refresh(href)
        else if origin in store.pointers && store.pointers[origin] != "" then store.pointers[origin]
        else DefaultSession)
  }

  function Pointed(site: Site, store: Storage, href: Url): Storage {
    var origin := site.origin(href);
    if site.keeps(origin) && site.refresh(href) != "" then store.(pointers := store.pointers[origin := site.refresh(href)])
    else store
  }

  function Stored(site: Site, store: Storage, key: Key): Saved {
    if site.keeps(key.origin) && key in store.states then store.states[key] else Missing
  }

  function Kept(site: Site, store: Storage, key: Key, s: Nav): Storage {
    if site.keeps(key.origin) then store.(states := store.states[key := Save(s)]) else store
  }

  lemma KeptTwice(site: Site, store: Storage, key: Key, a: Nav, b: Nav)
    ensures Kept(site, Kept(site, store, key, a), key, b) == Kept(site, store, key, b)
  {
  }

  /** Opening one page after another, as far as the pointers go. */
  function PagesOpened(site: Site, store: Storage, hrefs: seq<Url>): Storage {
    if hrefs == [] then store else Pointed(site, PagesOpened(site, store, hrefs[..|hrefs| - 1]), hrefs[|hrefs| - 1])
  }

  predicate HasRefresh(site: Site, origin: string, href: Url) {
    site.origin(href) == origin && site.refresh(href) != ""
  }

  /** The first k pages aside, none of the origin has a refresh parameter. */
  predicate NoneFrom(site: Site, origin: string, hrefs: seq<Url>, k: nat) {
    forall i | k <= i < |hrefs| :: !HasRefresh(site, origin, hrefs[i])
  }

  lemma {:induction false} PointerStays(site: Site, store: Storage, hrefs: seq<Url>, origin: string, k: nat)
    requires k <= |hrefs| && NoneFrom(site, origin, hrefs, k)
    ensures var before, after := PagesOpened(site, store, hrefs[..k]).pointers, PagesOpened(site, store, hrefs).pointers;
            if origin in before then origin in after && after[origin] == before[origin] else origin !in after
    decreases |hrefs|
  {
    var n := |hrefs| - 1;
    if k <= n {
      assert hrefs[..n][..k] == hrefs[..k];
      assert !HasRefresh(site, origin, hrefs[n]);
      PointerStays(site, store, hrefs[..n], origin, k);
    } else {
      assert hrefs[..k] == hrefs;
    }
  }

  /**
   * The session a page's state is kept under, after any pages: its own refresh
   * parameter, or else the last one of its origin, or else "default".
   */
  lemma SessionOfPage(site: Site, hrefs: seq<Url>, href: Url, k: nat)
    requires var origin := site.origin(href);
             site.keeps(origin) && k <= |hrefs| && NoneFrom(site, origin, hrefs, k)
             && (k > 0 ==> HasRefresh(site, origin, hrefs[k - 1]))
    ensures var key := KeyAt(site, PagesOpened(site, Storage(map[], map[]), hrefs), href);
            && key.origin == site.origin(href)
            && key.session == (if site.refresh(href) != "" then site.refresh(href)
                               else if k > 0 then site.refresh(hrefs[k - 1])
                               else "default")
  {
    PointerStays(site, Storage(map[], map[]), hrefs, site.origin(href), k);
    if k > 0 { assert hrefs[..k][..k - 1] == hrefs[..k - 1]; }
  }

  // ----- the script -----

  class Script {
    const site: Site
    var storage: Storage
    var key: Key
    var navStack: seq<Url>
    var navIndex: int
    var navSeq: nat

    constructor (site: Site, storage: Storage, href: Url)
      ensures this.site == site && navStack == [] && navIndex == -1 && navSeq == 0
      ensures key == KeyAt(site, storage, href) && this.storage == Pointed(site, storage, href)
    {
      this.site, this.storage, key := site, storage, Key("", "");
      navStack, navIndex, navSeq := [], -1, 0;
      new;
      key := GetNavStorageKey(href);
    }

    method GetNavStorageKey(href: Url) returns (k: Key)
      modifies this`storage
      ensures k == KeyAt(site, old(storage), href) && storage == Pointed(site, old(storage), href)
    {
      var origin := site.origin(href);
      var sessionId := DefaultSession;
      if site.keeps(origin) {
        var refresh := site.refresh(href);
        if refresh != "" {
          storage := storage.(pointers := storage.pointers[origin := refresh]);
          sessionId := refresh;
        } else if origin in storage.pointers && storage.pointers[origin] != "" {
          sessionId := storage.pointers[origin];
        }
      }
      return Key(origin, sessionId);
    }

    ghost function State(): Nav
      reads this
    {
      Nav(navStack, navIndex)
    }

    /** In range, with the observed address at the index. */
    ghost predicate At(href: Url)
      reads this
    {
      0 <= navIndex < |navStack| && navStack[navIndex] == href
    }

    /** The saved entries that hold an address. */
    method ReadEntries(entries: seq<SavedEntry>) returns (urls: seq<Url>)
      ensures urls == SavedUrls(entries)
    {
      urls := [];
      for i := 0 to |entries|
        invariant urls + SavedUrls(entries[i..]) == SavedUrls(entries)
      {
        SavedUrlsAt(entries, i, urls);
        match entries[i] {
          case SavedText(u) => if u != "" { urls := urls + [u]; }
          case SavedUrl(u) => if u != "" { urls := urls + [u]; }
          case OtherEntry =>
        }
      }
    }

    method LoadNavState()
      requires navStack == [] && navIndex == -1
      modifies this`navStack, this`navIndex
      ensures State() == Loaded(Stored(site, storage, key))
    {
      match Stored(site, storage, key)
      case Missing =>
      case Unreadable => navStack, navIndex := [], -1;
      case SavedState(stack, index) =>
        if stack.Some? {
          navStack := ReadEntries(stack.value);
        } else {
          navStack := [];
        }
        navIndex := if index.Some? then index.value else -1;
        if navIndex >= |navStack| {
          navIndex := |navStack| - 1;
        }
    }

    /** The scan from the start; past the end if nothing matches. */
    method ScanForMatch(href: Url) returns (i: nat)
      ensures i <= |navStack|
      ensures FirstMatch(site.norm, navStack, href) == if i < |navStack| then Some(i) else None
    {
      i := 0;
      while i < |navStack|
        invariant i <= |navStack|
        invariant FirstMatch(site.norm, navStack, href) == Later(FirstMatch(site.norm, navStack[i..], href), i)
      {
        assert navStack[i..][1..] == navStack[i + 1..];
        if site.norm(navStack[i]) == site.norm(href) {
          break;
        }
        i := i + 1;
      }
    }

    method EnsureCurrentInStack(href: Url, mode: Mode)
      modifies this`navStack, this`navIndex
      ensures State() == Ensured(site.norm, old(State()), href, mode)
      ensures mode.Push? || old(0 <= navIndex < |navStack|) ==> At(href)
    {
      if mode.Replace? {
        if 0 <= navIndex < |navStack| {
          navStack := navStack[navIndex := href];
        } else {
          navStack, navIndex := [href], 0;
        }
        return;
      }
      if mode.Push? {
        navStack := Slice(navStack, navIndex + 1) + [href];
        navIndex := |navStack| - 1;
        return;
      }
      var found := FindNearby(href);
      if !found {
        navStack := Slice(navStack, navIndex + 1) + [href];
        navIndex := |navStack| - 1;
      }
    }

    /** Moves to the entry the address is found at, and says whether there is one. */
    method FindNearby(href: Url) returns (found: bool)
      modifies this`navStack, this`navIndex
      ensures var at := Locate(site.norm, old(State()), href);
              && found == at.Some?
              && (found ==> at.value < |old(navStack)| && State() == Nav(old(navStack)[at.value := href], at.value))
              && (!found ==> State() == old(State()))
    {
      found := true;
      if 0 <= navIndex < |navStack| && site.norm(navStack[navIndex]) == site.norm(href) {
        navStack := navStack[navIndex := href];
      } else if 0 <= navIndex + 1 < |navStack| && site.norm(navStack[navIndex + 1]) == site.norm(href) {
        navIndex := navIndex + 1;
        navStack := navStack[navIndex := href];
      } else if 0 < navIndex <= |navStack| && site.norm(navStack[navIndex - 1]) == site.norm(href) {
        navIndex := navIndex - 1;
        navStack := navStack[navIndex := href];
      } else {
        var i := ScanForMatch(href);
        if i < |navStack| {
          navIndex := i;
          navStack := navStack[navIndex := href];
        } else {
          found := false;
        }
      }
    }

    method SaveNavState()
      modifies this`storage
      ensures storage == Kept(site, old(storage), key, State())
    {
      if site.keeps(key.origin) {
        storage := storage.(states := storage.states[key := SavedState(Some(SavedTexts(navStack)), Some(navIndex))]);
      }
    }

    method ObserveLocation(href: Url, mode: Mode)
      modifies this
      ensures State() == Ensured(site.norm, old(State()), href, mode)
      ensures mode.Push? || old(0 <= navIndex < |navStack|) ==> At(href)
      ensures storage == Kept(site, old(storage), key, State()) && key == old(key) && navSeq == old(navSeq) + 1
    {
      EnsureCurrentInStack(href, mode);
      SaveNavState();
      navSeq := navSeq + 1;
    }

    method InitializeNavigation(href: Url)
      requires navStack == [] && navIndex == -1
      modifies this
      ensures State() == Initialized(site.norm, Stored(site, old(storage), key), href) && At(href)
      ensures storage == Kept(site, old(storage), key, State()) && key == old(key) && navSeq == old(navSeq) + 1
    {
      ghost var before := storage;
      LoadNavState();
      if |navStack| == 0 {
        navStack, navIndex := [href], 0;
        SaveNavState();
      } else if navIndex < 0 || navIndex >= |navStack| {
        navIndex := |navStack| - 1;
        SaveNavState();
      }
      assert State() == Opened(Stored(site, before, key), href);
      KeptTwice(site, before, key, State(), Ensured(site.norm, State(), href, Auto));
      ObserveLocation(href, Auto);
    }

    /** The `goto` message: the address is pushed before the browser goes there. */
    method Goto(url: Url)
      modifies this
      ensures State() == Pushed(old(State()), url) && At(url)
      ensures storage == Kept(site, old(storage), key, State()) && key == old(key) && navSeq == old(navSeq) + 1
    {
      navStack := Slice(navStack, navIndex + 1) + [url];
      navIndex := |navStack| - 1;
      SaveNavState();
      navSeq := navSeq + 1;
    }
  }

  function Later(r: Option<nat>, k: nat): Option<nat> {
    match r
    case None => None
    case Some(i) => Some(i + k)
  }

  // ----- browser history -----

  /** The browser's list of entries and its position in it. */
  datatype History = History(entries: seq<Url>, pos: nat)

  predicate ValidHistory(h: History) {
    h.pos < |h.entries|
  }

  /**
   * What the page is that an event leads to: the document that is there, a new
   * one, or an earlier one that comes back as it was left.
   */
  datatype How = Same | Load | Restore(doc: nat)

  /**
   * `Visit` is a navigation the script is not told of (a link, a hash), `Go` is
   * back, forward, or any jump, and `GoTo` is the message that makes the script
   * push an address and send the browser there. `landed` is the address the page
   * then has, which is another one where the server redirects; `inPlace` is
   * whether the browser gives it the current entry instead of a new one, as it
   * does for the address it is at.
   */
  datatype Event =
    | PushState(url: Url)
    | ReplaceState(url: Url)
    | Go(to: nat, landed: Url, how: How)
    | Visit(landed: Url, how: How)
    | GoTo(url: Url, landed: Url, inPlace: bool, how: How)
    | Reload(landed: Url)

  predicate Possible(h: History, e: Event) {
    e.Go? ==> e.to < |h.entries|
  }

  function Browse(h: History, e: Event): History
    requires ValidHistory(h) && Possible(h, e)
  {
    match e
    case PushState(url) => History(h.entries[..h.pos + 1] + [url], h.pos + 1)
    case ReplaceState(url) => h.(entries := h.entries[h.pos := url])
    case Go(to, landed, _) => History(h.entries[to := landed], to)
    case Visit(landed, _) => History(h.entries[..h.pos + 1] + [landed], h.pos + 1)
    case GoTo(_, landed, inPlace, _) =>
      if inPlace then h.(entries := h.entries[h.pos := landed]) else History(h.entries[..h.pos + 1] + [landed], h.pos + 1)
    case Reload(landed) => h.(entries := h.entries[h.pos := landed])
  }

  predicate Agrees(s: Nav, h: History) {
    s.stack == h.entries && s.index == h.pos
  }

  /** The entries in the order a jump's address is looked for: here, one ahead, one behind, then from the start. */
  predicate TriedBefore(pos: nat, i: nat, to: nat) {
    if to == pos then false
    else if to == pos + 1 then i == pos
    else if to + 1 == pos then i == pos || i == pos + 1
    else i == pos || i == pos + 1 || i + 1 == pos || i < to
  }

  predicate Alike(norm: Normalize, a: Url, b: Url) {
    norm(a) == norm(b)
  }

  predicate New(norm: Normalize, h: History, url: Url) {
    forall i | 0 <= i < |h.entries| :: !Alike(norm, h.entries[i], url)
  }

  /** The one entry ahead is the last one. */
  predicate OneAhead(h: History) {
    |h.entries| == h.pos + 2
  }

  /**
   * For a script that goes on from the browser's own entries and position: when it
   * can tell where the browser went. A jump: the address is like the entry jumped
   * to and unlike those tried before it. A visit: the address is new, or like the
   * only entry ahead and unlike the one here. A page it is sent to, or reloads:
   * the address is like the one expected. A jump to the only entry ahead may also
   * land on a new address; and a page sent to in place of the current entry must
   * take the script back to it, with nothing but the address sent ahead.
   */
  predicate CanTell(norm: Normalize, h: History, e: Event)
    requires ValidHistory(h) && Possible(h, e)
  {
    match e
    case Go(to, landed, _) =>
      || (Alike(norm, h.entries[to], landed)
          && forall i | 0 <= i < |h.entries| && TriedBefore(h.pos, i, to) :: !Alike(norm, h.entries[i], landed))
      || (OneAhead(h) && to == h.pos + 1 && New(norm, h, landed))
    case Visit(landed, _) =>
      || New(norm, h, landed)
      || (OneAhead(h) && Alike(norm, h.entries[h.pos + 1], landed) && !Alike(norm, h.entries[h.pos], landed))
    case GoTo(url, landed, inPlace, _) =>
      if !inPlace then Alike(norm, url, landed)
      else OneAhead(h) && h.entries[h.pos + 1] == url && !Alike(norm, url, landed) && Alike(norm, h.entries[h.pos], landed)
    case Reload(landed) => Alike(norm, h.entries[h.pos], landed)
    case _ => true
  }

  /**
   * From any state: when observing where the browser is gives its entries and
   * position. Either the stack has those entries, but for the one at the position,
   * which is like the address and is the first one tried that is; or the address
   * is new to the stack and follows what it has up to its index.
   */
  predicate LeadsTo(norm: Normalize, s: Nav, h: History)
    requires ValidHistory(h) && InRange(s)
  {
    var landed := h.entries[h.pos];
    || (&& |s.stack| == |h.entries| && s.stack[h.pos := landed] == h.entries
        && Alike(norm, s.stack[h.pos], landed)
        && forall i | 0 <= i < |s.stack| && TriedBefore(s.index, i, h.pos) :: !Alike(norm, s.stack[i], landed))
    || (&& New(norm, History(s.stack, s.index), landed)
        && h.pos == s.index + 1 && h.entries == s.stack[..s.index + 1] + [landed])
  }

  predicate InRange(s: Nav) {
    0 <= s.index < |s.stack|
  }

  lemma {:induction false} FirstMatchIsFirst(norm: Normalize, stack: seq<Url>, href: Url)
    ensures var r := FirstMatch(norm, stack, href);
            && (r.None? <==> forall i | 0 <= i < |stack| :: norm(stack[i]) != norm(href))
            && (r.Some? ==> r.value < |stack| && norm(stack[r.value]) == norm(href)
                            && forall i | 0 <= i < r.value :: norm(stack[i]) != norm(href))
  {
    if stack != [] {
      FirstMatchIsFirst(norm, stack[1..], href);
      assert forall i | 1 <= i < |stack| :: stack[i] == stack[1..][i - 1];
    }
  }

  lemma {:induction false} SavedTextsLoad(stack: seq<Url>)
    ensures SavedUrls(SavedTexts(stack)) == stack
  {
    if stack != [] {
      SavedTextsLoad(stack[1..]);
      assert stack == [stack[0]] + stack[1..];
    }
  }

  lemma LocateIsInRange(norm: Normalize, s: Nav, href: Url)
    ensures Locate(norm, s, href).Some? ==>
              Locate(norm, s, href).value < |s.stack| && norm(s.stack[Locate(norm, s, href).value]) == norm(href)
    ensures Locate(norm, s, href).None? ==> forall i | 0 <= i < |s.stack| :: norm(s.stack[i]) != norm(href)
  {
    FirstMatchIsFirst(norm, s.stack, href);
  }

  /** Observing twice is observing once: the many events that report one change do no harm. */
  lemma ObservingAgain(norm: Normalize, s: Nav, href: Url, mode: Mode)
    requires 0 <= s.index < |s.stack|
    ensures var once := Ensured(norm, s, href, mode);
            && 0 <= once.index < |once.stack| && once.stack[once.index] == href
            && Ensured(norm, once, href, Auto) == once
  {
    LocateIsInRange(norm, s, href);
  }

  /** A jump's address is found at an entry exactly if it is like that one and unlike those tried before it. */
  lemma LocateJump(norm: Normalize, s: Nav, to: nat, landed: Url)
    requires InRange(s) && to < |s.stack|
    ensures Locate(norm, s, landed) == Some(to)
            <==> Alike(norm, s.stack[to], landed)
                 && forall i | 0 <= i < |s.stack| && TriedBefore(s.index, i, to) :: !Alike(norm, s.stack[i], landed)
  {
    var found := Locate(norm, s, landed);
    LocateIsInRange(norm, s, landed);
    FirstMatchIsFirst(norm, s.stack, landed);
    if found.Some? && found != Some(to) && Alike(norm, s.stack[to], landed) {
      assert Alike(norm, s.stack[found.value], landed);
      assert TriedBefore(s.index, found.value, to);
    }
  }

  /** The observation leads to the browser's history exactly under that condition. */
  lemma ObservingLeads(norm: Normalize, s: Nav, h: History)
    requires ValidHistory(h) && InRange(s)
    ensures Agrees(Ensured(norm, s, h.entries[h.pos], Auto), h) <==> LeadsTo(norm, s, h)
  {
    var landed := h.entries[h.pos];
    LocateIsInRange(norm, s, landed);
    if h.pos < |s.stack| { LocateJump(norm, s, h.pos, landed); }
    if Locate(norm, s, landed).None? {
      assert New(norm, History(s.stack, s.index), landed);
    } else {
      assert Alike(norm, s.stack[Locate(norm, s, landed).value], landed);
    }
  }

  // ----- from the browser's own state -----

  /** Where the script is when it leaves a page: a goto has pushed the address already. */
  function Departed(s: Nav, e: Event): Nav {
    if e.GoTo? then Pushed(s, e.url) else s
  }

  predicate Observed(e: Event) {
    !e.PushState? && !e.ReplaceState?
  }

  lemma VisitTold(norm: Normalize, h: History, e: Event)
    requires ValidHistory(h) && Possible(h, e) && e.Visit?
    ensures LeadsTo(norm, Nav(h.entries, h.pos), Browse(h, e)) <==> CanTell(norm, h, e)
  {
    var h' := Browse(h, e);
    if OneAhead(h) {
      assert h.entries[h.pos + 1 := e.landed] == h'.entries;
    } else if |h.entries| == |h'.entries| {
      assert false;
    }
  }

  lemma GoTold(norm: Normalize, h: History, e: Event)
    requires ValidHistory(h) && Possible(h, e) && e.Go?
    ensures LeadsTo(norm, Nav(h.entries, h.pos), Browse(h, e)) <==> CanTell(norm, h, e)
  {
    var h' := Browse(h, e);
    if OneAhead(h) && e.to == h.pos + 1 {
      assert h'.entries == h.entries[..h.pos + 1] + [e.landed];
    } else if h'.entries == h.entries[..h.pos + 1] + [e.landed] {
      assert |h.entries| == h.pos + 2;
    }
  }

  lemma GoToTold(norm: Normalize, h: History, e: Event)
    requires ValidHistory(h) && Possible(h, e) && e.GoTo?
    ensures var s := Departed(Nav(h.entries, h.pos), e);
            InRange(s) && (LeadsTo(norm, s, Browse(h, e)) <==> CanTell(norm, h, e))
  {
    var s, h' := Departed(Nav(h.entries, h.pos), e), Browse(h, e);
    assert s.stack == h.entries[..h.pos + 1] + [e.url] && s.index == h.pos + 1;
    if e.inPlace {
      assert |s.stack| == |h'.entries| && s.stack[h.pos := e.landed] == h'.entries <==> OneAhead(h) && h.entries[h.pos + 1] == e.url by {
        if |s.stack| == |h'.entries| && s.stack[h.pos := e.landed] == h'.entries { assert h'.entries[h.pos + 1] == e.url; }
      }
      assert TriedBefore(s.index, h.pos + 1, h.pos) && s.stack[h.pos + 1] == e.url && s.stack[h.pos] == h.entries[h.pos];
      assert forall i | 0 <= i < |s.stack| && TriedBefore(s.index, i, h.pos) :: i == h.pos + 1;
    } else {
      assert s.stack[h.pos + 1 := e.landed] == h'.entries;
    }
  }

  /** Going on from the browser's own entries and position, an observation follows exactly if the script can tell. */
  lemma ToldIff(norm: Normalize, h: History, e: Event)
    requires ValidHistory(h) && Possible(h, e) && Observed(e)
    ensures var s := Departed(Nav(h.entries, h.pos), e);
            InRange(s) && (LeadsTo(norm, s, Browse(h, e)) <==> CanTell(norm, h, e))
  {
    match e
    case Visit(_, _) => VisitTold(norm, h, e);
    case Go(_, _, _) => GoTold(norm, h, e);
    case GoTo(_, _, _, _) => GoToTold(norm, h, e);
    case Reload(_) =>
      assert !exists i :: TriedBefore(h.pos, i, h.pos);
  }

  // ----- documents -----

  /** A document's script keeps the key it was loaded with. */
  datatype Doc = Doc(key: Key, nav: Nav)

  /** The documents of a tab, the one that is shown, and its session storage. */
  datatype Tab = Tab(docs: seq<Doc>, at: nat, store: Storage)

  /** Every script has an index in range, and the one shown has saved its state. */
  ghost predicate ValidTab(site: Site, t: Tab) {
    && t.at < |t.docs|
    && (forall d | d in t.docs :: InRange(d.nav))
    && var shown := t.docs[t.at];
       (site.keeps(shown.key.origin) ==> Stored(site, t.store, shown.key) == Save(shown.nav))
  }

  /** A page is reloaded as a new document, and only a jump brings back an earlier one. */
  predicate PossibleIn(t: Tab, h: History, e: Event) {
    && Possible(h, e)
    && (e.Go? && e.how.Restore? ==> e.how.doc < |t.docs| && e.how.doc != t.at)
    && ((e.Visit? || e.GoTo?) ==> !e.how.Restore?)
  }

  function HowOf(e: Event): How
    requires Observed(e)
  {
    match e
    case Go(_, _, how) => how
    case Visit(_, how) => how
    case GoTo(_, _, _, how) => how
    case Reload(_) => Load
  }

  /** The shown script's storage when the page is left. */
  function LeftStore(site: Site, t: Tab, e: Event): Storage
    requires t.at < |t.docs|
  {
    if e.GoTo? then Kept(site, t.store, t.docs[t.at].key, Departed(t.docs[t.at].nav, e)) else t.store
  }

  /** The document that goes on, before it looks at the address. */
  function Resumed(site: Site, t: Tab, e: Event): Doc
    requires t.at < |t.docs| && Observed(e) && (HowOf(e).Restore? ==> HowOf(e).doc < |t.docs|)
  {
    match HowOf(e)
    case Same => t.docs[t.at].(nav := Departed(t.docs[t.at].nav, e))
    case Load =>
      var store := LeftStore(site, t, e);
      var key := KeyAt(site, store, e.landed);
      Doc(key, Opened(Stored(site, store, key), e.landed))
    case Restore(d) => t.docs[d]
  }

  /** The tab after the event: the page is left, and the script of the page that is then shown observes and saves. */
  function TabStep(site: Site, t: Tab, h': History, e: Event): Tab
    requires t.at < |t.docs| && ValidHistory(h')
    requires Observed(e) && HowOf(e).Restore? ==> HowOf(e).doc < |t.docs|
  {
    var href := h'.entries[h'.pos];
    if !Observed(e) then
      var d := t.docs[t.at];
      var nav := Ensured(site.norm, d.nav, href, if e.PushState? then Push else Replace);
      Tab(t.docs[t.at := d.(nav := nav)], t.at, Kept(site, t.store, d.key, nav))
    else
      var from := Resumed(site, t, e);
      var to := from.(nav := Ensured(site.norm, from.nav, href, Auto));
      var store := if HowOf(e).Load? then Pointed(site, LeftStore(site, t, e), e.landed) else LeftStore(site, t, e);
      var left := t.docs[t.at := t.docs[t.at].(nav := Departed(t.docs[t.at].nav, e))];
      var (docs, at) :=
        match HowOf(e)
        case Same => (left[t.at := to], t.at)
        case Load => (left + [to], |left|)
        case Restore(d) => (left[d := to], d);
      Tab(docs, at, Kept(site, store, to.key, to.nav))
  }

  /** The shown script's stack and index are the browser's entries and position. */
  predicate Follows(t: Tab, h: History) {
    t.at < |t.docs| && Agrees(t.docs[t.at].nav, h)
  }

  lemma {:induction false} OpenedSaved(s: Nav, href: Url)
    requires InRange(s)
    ensures Opened(Save(s), href) == s
  {
    SavedTextsLoad(s.stack);
  }

  lemma OpenedIsInRange(saved: Saved, href: Url)
    ensures InRange(Opened(saved, href))
  {
  }

  lemma ResumedIsInRange(site: Site, t: Tab, e: Event)
    requires ValidTab(site, t) && Observed(e) && (HowOf(e).Restore? ==> HowOf(e).doc < |t.docs|)
    ensures InRange(Resumed(site, t, e).nav)
  {
    match HowOf(e)
    case Same => assert InRange(t.docs[t.at].nav);
    case Load =>
      var store := LeftStore(site, t, e);
      OpenedIsInRange(Stored(site, store, KeyAt(site, store, e.landed)), e.landed);
    case Restore(d) => assert InRange(t.docs[d].nav);
  }

  /** When the shown script follows the browser through an event: what it goes on from leads there. */
  ghost predicate Faithful(site: Site, t: Tab, h: History, e: Event)
    requires ValidTab(site, t) && ValidHistory(h) && PossibleIn(t, h, e)
  {
    ResumedInRange(site, t, e);
    Observed(e) ==> LeadsTo(site.norm, Resumed(site, t, e).nav, Browse(h, e))
  }

  lemma ResumedInRange(site: Site, t: Tab, e: Event)
    requires ValidTab(site, t) && (Observed(e) && HowOf(e).Restore? ==> HowOf(e).doc < |t.docs|)
    ensures Observed(e) ==> InRange(Resumed(site, t, e).nav)
  {
    if Observed(e) { ResumedIsInRange(site, t, e); }
  }

  lemma EnsuredInRange(norm: Normalize, s: Nav, href: Url, mode: Mode)
    requires InRange(s)
    ensures InRange(Ensured(norm, s, href, mode))
  {
    ObservingAgain(norm, s, href, mode);
  }

  lemma StepKeepsValid(site: Site, t: Tab, h: History, e: Event)
    requires ValidTab(site, t) && ValidHistory(h) && PossibleIn(t, h, e)
    ensures ValidHistory(Browse(h, e)) && ValidTab(site, TabStep(site, t, Browse(h, e), e))
  {
    var h' := Browse(h, e);
    var href := h'.entries[h'.pos];
    var d := t.docs[t.at];
    if Observed(e) {
      ResumedIsInRange(site, t, e);
      EnsuredInRange(site.norm, Resumed(site, t, e).nav, href, Auto);
    } else {
      EnsuredInRange(site.norm, d.nav, href, if e.PushState? then Push else Replace);
    }
  }

  /** One event: the shown script follows the browser exactly if the event is faithful. */
  lemma StepRefines(site: Site, t: Tab, h: History, e: Event)
    requires ValidTab(site, t) && ValidHistory(h) && PossibleIn(t, h, e) && Follows(t, h)
    ensures ValidHistory(Browse(h, e))
    ensures Follows(TabStep(site, t, Browse(h, e), e), Browse(h, e)) <==> Faithful(site, t, h, e)
  {
    if Observed(e) {
      ResumedIsInRange(site, t, e);
      ObservingLeads(site.norm, Resumed(site, t, e).nav, Browse(h, e));
    }
  }

  // ----- which events are faithful -----

  /** In the same document, or a new one with the same key, the script goes on from the state it left. */
  lemma SameKeyGoesOn(site: Site, t: Tab, e: Event)
    requires ValidTab(site, t) && Observed(e)
    requires HowOf(e).Same? || (HowOf(e).Load? && site.keeps(t.docs[t.at].key.origin)
                                && KeyAt(site, LeftStore(site, t, e), e.landed) == t.docs[t.at].key)
    ensures Resumed(site, t, e).nav == Departed(t.docs[t.at].nav, e)
  {
    var d := t.docs[t.at];
    assert InRange(d.nav);
    assert InRange(Departed(d.nav, e));
    if HowOf(e).Load? { OpenedSaved(Departed(d.nav, e), e.landed); }
  }

  /** Then the event is faithful exactly if the script can tell. */
  lemma SameKeyIff(site: Site, t: Tab, h: History, e: Event)
    requires ValidTab(site, t) && ValidHistory(h) && PossibleIn(t, h, e) && Follows(t, h) && Observed(e)
    requires HowOf(e).Same? || (HowOf(e).Load? && site.keeps(t.docs[t.at].key.origin)
                                && KeyAt(site, LeftStore(site, t, e), e.landed) == t.docs[t.at].key)
    ensures Faithful(site, t, h, e) <==> CanTell(site.norm, h, e)
  {
    SameKeyGoesOn(site, t, e);
    ToldIff(site.norm, h, e);
    assert t.docs[t.at].nav == Nav(h.entries, h.pos);
  }

  /** A page loaded under a key with nothing stored follows only a history of that one page. */
  lemma EmptyKeyIff(site: Site, t: Tab, h: History, e: Event)
    requires ValidTab(site, t) && ValidHistory(h) && PossibleIn(t, h, e) && Observed(e) && HowOf(e).Load?
    requires var store := LeftStore(site, t, e); Stored(site, store, KeyAt(site, store, e.landed)).Missing?
    ensures Faithful(site, t, h, e) <==> Browse(h, e) == History([e.landed], 0)
  {
    var h' := Browse(h, e);
    var s := Nav([e.landed], 0);
    assert Resumed(site, t, e).nav == s && h'.entries[h'.pos] == e.landed;
    assert Alike(site.norm, s.stack[0], e.landed);
    if h' == History([e.landed], 0) {
      assert s.stack[0 := e.landed] == h'.entries;
      assert !exists i :: TriedBefore(0, i, 0);
    }
  }

  /**
   * A document left for a new page at c and then brought back as it was has not
   * seen that page: it follows exactly if c is what its stack has ahead anyway.
   */
  lemma RestoredIff(norm: Normalize, h: History, c: Url)
    requires ValidHistory(h)
    ensures LeadsTo(norm, Nav(h.entries, h.pos), History(h.entries[..h.pos + 1] + [c], h.pos)) <==> OneAhead(h) && h.entries[h.pos + 1] == c
  {
    var s, h' := Nav(h.entries, h.pos), History(h.entries[..h.pos + 1] + [c], h.pos);
    var landed := h'.entries[h'.pos];
    assert landed == h.entries[h.pos] && Alike(norm, s.stack[h.pos], landed);
    assert s.stack[h.pos := landed] == h.entries;
    assert !exists i :: TriedBefore(h.pos, i, h.pos);
    assert h.entries == h'.entries <==> OneAhead(h) && h.entries[h.pos + 1] == c by {
      if h.entries == h'.entries { assert h'.entries[h.pos + 1] == c; }
      if OneAhead(h) && h.entries[h.pos + 1] == c { assert h.entries == h.entries[..h.pos + 1] + [h.entries[h.pos + 1]]; }
    }
  }

  // ----- runs -----

  ghost predicate PossibleRun(site: Site, t: Tab, h: History, events: seq<Event>)
    requires ValidTab(site, t) && ValidHistory(h)
    decreases |events|
  {
    events == [] || (PossibleIn(t, h, events[0]) &&
      (StepKeepsValid(site, t, h, events[0]);
       PossibleRun(site, TabStep(site, t, Browse(h, events[0]), events[0]), Browse(h, events[0]), events[1..])))
  }

  ghost predicate FaithfulRun(site: Site, t: Tab, h: History, events: seq<Event>)
    requires ValidTab(site, t) && ValidHistory(h) && PossibleRun(site, t, h, events)
    decreases |events|
  {
    events == [] || (Faithful(site, t, h, events[0]) &&
      (StepKeepsValid(site, t, h, events[0]);
       FaithfulRun(site, TabStep(site, t, Browse(h, events[0]), events[0]), Browse(h, events[0]), events[1..])))
  }

  /** The shown script follows the browser after each event of the run. */
  ghost predicate FollowsThroughout(site: Site, t: Tab, h: History, events: seq<Event>)
    requires ValidTab(site, t) && ValidHistory(h) && PossibleRun(site, t, h, events)
    decreases |events|
  {
    Follows(t, h) && (events == [] ||
      (StepKeepsValid(site, t, h, events[0]);
       FollowsThroughout(site, TabStep(site, t, Browse(h, events[0]), events[0]), Browse(h, events[0]), events[1..])))
  }

  /** Over a whole run the scripts of the pages shown follow the browser's history exactly if every event is faithful. */
  lemma {:induction false} RunRefines(site: Site, t: Tab, h: History, events: seq<Event>)
    requires ValidTab(site, t) && ValidHistory(h) && PossibleRun(site, t, h, events) && Follows(t, h)
    ensures FollowsThroughout(site, t, h, events) <==> FaithfulRun(site, t, h, events)
    decreases |events|
  {
    if events != [] {
      var h' := Browse(h, events[0]);
      StepKeepsValid(site, t, h, events[0]);
      StepRefines(site, t, h, events[0]);
      var t' := TabStep(site, t, h', events[0]);
      if Faithful(site, t, h, events[0]) {
        RunRefines(site, t', h', events[1..]);
      } else {
        assert !Follows(t', h');
      }
    }
  }

  /** A first page opened in a tab without storage follows a history of that page. */
  lemma FirstPage(site: Site, href: Url)
    ensures var key := KeyAt(site, Storage(map[], map[]), href);
            var nav := Initialized(site.norm, Missing, href);
            var t := Tab([Doc(key, nav)], 0, Kept(site, Pointed(site, Storage(map[], map[]), href), key, nav));
            ValidTab(site, t) && Follows(t, History([href], 0))
  {
  }

  predicate JumpTold(norm: Normalize, h: History, to: nat)
    requires ValidHistory(h) && to < |h.entries|
  {
    CanTell(norm, h, Go(to, h.entries[to], Same))
  }

  /**
   * One step back or forward, to the address that was there, can be told exactly
   * when the neighbours differ: forward, the entry left behind; back, that entry
   * and the one after it.
   */
  lemma NeighboursMustDiffer(norm: Normalize, h: History)
    requires ValidHistory(h)
    ensures h.pos + 1 < |h.entries| ==>
              (JumpTold(norm, h, h.pos + 1) <==> !Alike(norm, h.entries[h.pos], h.entries[h.pos + 1]))
    ensures h.pos > 0 ==>
              (JumpTold(norm, h, h.pos - 1) <==>
               !Alike(norm, h.entries[h.pos], h.entries[h.pos - 1])
               && (h.pos + 1 < |h.entries| ==> !Alike(norm, h.entries[h.pos + 1], h.entries[h.pos - 1])))
  {
  }

  /** From any position every jump can be told exactly if no two entries normalize alike. */
  lemma DistinctEntriesIff(norm: Normalize, h: History)
    requires ValidHistory(h)
    ensures (forall to | 0 <= to < |h.entries| :: JumpTold(norm, h, to))
            <==> forall i, j | 0 <= i < j < |h.entries| :: !Alike(norm, h.entries[i], h.entries[j])
  {
    if forall to | 0 <= to < |h.entries| :: JumpTold(norm, h, to) {
      forall i, j | 0 <= i < j < |h.entries| ensures !Alike(norm, h.entries[i], h.entries[j]) {
        assert JumpTold(norm, h, i) && JumpTold(norm, h, j);
        assert Alike(norm, h.entries[i], h.entries[i]) && Alike(norm, h.entries[j], h.entries[j]);
        assert TriedBefore(h.pos, i, j) || TriedBefore(h.pos, j, i);
      }
    } else {
      var to :| 0 <= to < |h.entries| && !JumpTold(norm, h, to);
      var i :| 0 <= i < |h.entries| && TriedBefore(h.pos, i, to) && Alike(norm, h.entries[i], h.entries[to]);
      assert i != to;
    }
  }
}
