/** The page widgets of js/main.js: the testimonial slider, the FAQ accordion, the
    navigation link that marks the current page, and the site-wide form validators,
    which differ from the contact page's. */
module Site {
  import opened Seqs
  import opened Text
  import opened Patterns
  import Contact

  // ================================================================ slider

  /** The slide after `current`, wrapping from the last to the first. */
  function NextIndex(current: nat, n: nat): (r: nat)
    requires current < n
    ensures r < n
    ensures r == if current == n - 1 then 0 else current + 1
  {
    (current + 1) % n
  }

  /** The slide before `current`, wrapping from the first to the last. The `+ n` keeps
      the dividend non-negative, so JavaScript's `%` and Euclidean `%` agree here. */
  function PrevIndex(current: nat, n: nat): (r: nat)
    requires current < n
    ensures r < n
    ensures r == if current == 0 then n - 1 else current - 1
  {
    (current - 1 + n) % n
  }

  /** Going back undoes going forward, and going forward undoes going back. */
  lemma PrevUndoesNext(current: nat, n: nat)
    requires current < n
    ensures PrevIndex(NextIndex(current, n), n) == current
    ensures NextIndex(PrevIndex(current, n), n) == current
  {
  }

  /** Going forward `k` times from `current`. */
  function Forward(current: nat, n: nat, k: nat): (r: nat)
    requires current < n
    ensures r < n
  {
    if k == 0 then current else NextIndex(Forward(current, n, k - 1), n)
  }

  /** `k` steps forward, for `k` up to `n`, count up from `current` and wrap past the
      last slide once; after `n` steps the slider is back where it started. */
  lemma {:induction false} ForwardWraps(current: nat, n: nat, k: nat)
    requires current < n && k <= n
    ensures Forward(current, n, k) == if current + k < n then current + k else current + k - n
  {
    if k > 0 {
      ForwardWraps(current, n, k - 1);
    }
  }

  lemma FullCircle(current: nat, n: nat)
    requires current < n
    ensures Forward(current, n, n) == current
  {
    ForwardWraps(current, n, n);
  }

  /** Exactly one flag, the one at `k`, is set. */
  predicate OnlyActive(flags: seq<bool>, k: nat) {
    forall i :: 0 <= i < |flags| ==> (flags[i] <==> i == k)
  }

  /** The flags after the active mark moves from `from` to `to`. */
  function MoveActive(flags: seq<bool>, from: nat, to: nat): (r: seq<bool>)
    requires from < |flags| && to < |flags|
    ensures |r| == |flags|
    ensures OnlyActive(flags, from) ==> OnlyActive(r, to)
    ensures r[to] && (from != to ==> !r[from])
    ensures forall i :: 0 <= i < |flags| && i != from && i != to ==> r[i] == flags[i]
  {
    flags[from := false][to := true]
  }

  /** The slider: the `active` class of each slide and of each dot, and the
      `currentSlide` index its closure keeps. The dots are created by the script with
      the first one active; which slides start active is up to the page. */
  class Slider {
    var slides: array<bool>
    var dots: array<bool>
    var hasDots: bool
    var current: nat

    predicate Valid()
      reads this, dots
    {
      slides.Length > 0 && slides != dots && current < slides.Length &&
      (hasDots ==> dots.Length == slides.Length && OnlyActive(dots[..], current))
    }

    /** `initTestimonialSlider` on a page with at least one slide. */
    constructor (initialSlides: seq<bool>, withDots: bool)
      requires |initialSlides| > 0
      ensures Valid() && fresh(slides) && fresh(dots)
      ensures slides[..] == initialSlides && hasDots == withDots && current == 0
    {
      slides := new bool[|initialSlides|](i requires 0 <= i < |initialSlides| => initialSlides[i]);
      dots := new bool[if withDots then |initialSlides| else 0](i => i == 0);
      hasDots := withDots;
      current := 0;
      new;
      assert hasDots ==> dots[..] == seq(|initialSlides|, i => i == 0);
    }

    /** `goToSlide`: the active mark moves from the current slide and dot to slide
        `index`, which becomes current. */
    method GoToSlide(index: nat)
      requires Valid() && index < slides.Length
      modifies slides, dots, this`current
      ensures Valid() && current == index
      ensures slides[..] == MoveActive(old(slides[..]), old(current), index)
      ensures hasDots ==> dots[..] == MoveActive(old(dots[..]), old(current), index)
      ensures !hasDots ==> dots[..] == old(dots[..])
    {
      slides[current] := false;
      if hasDots {
        dots[current] := false;
      }
      current := index;
      slides[current] := true;
      if hasDots {
        dots[current] := true;
      }
    }

    /** `nextSlide`. */
    method NextSlide()
      requires Valid()
      modifies slides, dots, this`current
      ensures Valid() && current == NextIndex(old(current), slides.Length)
      ensures slides[..] == MoveActive(old(slides[..]), old(current), current)
      ensures hasDots ==> dots[..] == MoveActive(old(dots[..]), old(current), current)
      ensures !hasDots ==> dots[..] == old(dots[..])
      ensures old(OnlyActive(slides[..], current)) ==> OnlyActive(slides[..], current)
    {
      GoToSlide((current + 1) % slides.Length);
    }

    /** `prevSlide`. */
    method PrevSlide()
      requires Valid()
      modifies slides, dots, this`current
      ensures Valid() && current == PrevIndex(old(current), slides.Length)
      ensures slides[..] == MoveActive(old(slides[..]), old(current), current)
      ensures hasDots ==> dots[..] == MoveActive(old(dots[..]), old(current), current)
      ensures !hasDots ==> dots[..] == old(dots[..])
      ensures old(OnlyActive(slides[..], current)) ==> OnlyActive(slides[..], current)
    {
      GoToSlide((current - 1 + slides.Length) % slides.Length);
    }
  }

  // ================================================================ FAQ accordion

  /** At most one flag is set. */
  predicate AtMostOne(flags: seq<bool>) {
    forall i, j :: 0 <= i < |flags| && 0 <= j < |flags| && flags[i] && flags[j] ==> i == j
  }

  /** The accordion after a click on item `k`: every other item closed, item `k`
      toggled. */
  function AfterClick(flags: seq<bool>, k: nat): (r: seq<bool>)
    requires k < |flags|
    ensures |r| == |flags|
  {
    seq(|flags|, i requires 0 <= i < |flags| => if i == k then !flags[k] else false)
  }

  /** A click leaves at most one item open: the clicked one, exactly when it was
      closed before; opening an item and clicking it again closes everything. */
  lemma AfterClickSpec(flags: seq<bool>, k: nat)
    requires k < |flags|
    ensures AtMostOne(AfterClick(flags, k))
    ensures AfterClick(flags, k)[k] <==> !flags[k]
    ensures !flags[k] ==> OnlyActive(AfterClick(flags, k), k)
    ensures !flags[k] ==> forall i :: 0 <= i < |flags| ==> !AfterClick(AfterClick(flags, k), k)[i]
  {
  }

  /** The FAQ items: whether each is open, and whether it has the question and answer
      elements that give it a click handler. */
  class Accordion {
    var open: array<bool>
    var clickable: seq<bool>

    predicate Valid()
      reads this
    {
      |clickable| == open.Length
    }

    constructor (initialOpen: seq<bool>, withHandler: seq<bool>)
      requires |withHandler| == |initialOpen|
      ensures Valid() && fresh(open)
      ensures open[..] == initialOpen && clickable == withHandler
    {
      open := new bool[|initialOpen|](i requires 0 <= i < |initialOpen| => initialOpen[i]);
      clickable := withHandler;
    }

    /** A click on the question of item `k`: an item without a handler ignores it;
        otherwise every other item is closed, one at a time, and item `k` toggled. */
    method Click(k: nat)
      requires Valid() && k < open.Length
      modifies open
      ensures clickable[k] ==> open[..] == AfterClick(old(open[..]), k)
      ensures !clickable[k] ==> open[..] == old(open[..])
    {
      if !clickable[k] {
        return;
      }
      var isActive := open[k];
      var i := 0;
      while i < open.Length
        invariant 0 <= i <= open.Length
        invariant forall m :: 0 <= m < i && m != k ==> !open[m]
        invariant forall m :: i <= m < open.Length || m == k ==> 0 <= m < open.Length ==> open[m] == old(open[m])
      {
        if i != k {
          open[i] := false;
        }
        i := i + 1;
      }
      open[k] := !isActive;
    }
  }

  // ================================================================ active link

  /** Scanning back from `e`: the position just after the last '/' before `e`, or
      0 when there is none. */
  function SegmentStart(path: string, e: nat): (k: nat)
    requires e <= |path|
    ensures k <= e
    ensures forall j :: k <= j < e ==> path[j] != '/'
    ensures k == 0 || path[k - 1] == '/'
    decreases e
  {
    if e > 0 && path[e - 1] != '/' then SegmentStart(path, e - 1) else e
  }

  /** No character of `s` is a '/'. */
  predicate NoSlash(s: string) {
    forall i :: 0 <= i < |s| ==> s[i] != '/'
  }

  /** The text after the last '/' of `path`: `path.split('/').pop()`. */
  function LastSegment(path: string): (r: string)
    ensures |r| <= |path| && r == path[|path| - |r|..]
    ensures NoSlash(r)
    ensures r == path || path[|path| - |r| - 1] == '/'
  {
    var k := SegmentStart(path, |path|);
    assert forall j :: 0 <= j < |path| - k ==> path[k..][j] == path[k + j];
    path[k..]
  }

  /** The page a path names: its last segment, or "index.html" for a path that ends
      with '/' or is empty. */
  function CurrentPage(path: string): (r: string)
    ensures r != []
    ensures NoSlash(r)
    ensures r == LastSegment(path) || (LastSegment(path) == [] && r == "index.html")
  {
    var last := LastSegment(path);
    if last == [] then
      DefaultPageHasNoSlash();
      "index.html"
    else last
  }

  lemma DefaultPageHasNoSlash()
    ensures NoSlash("index.html")
  {
    var page := "index.html";
    forall j | 0 <= j < |page| ensures page[j] != '/' {
    }
  }

  /** A page name without '/' is read back from a path that ends with it, and a
      path that ends with '/' names "index.html". */
  lemma CurrentPageOfSite(dir: string, page: string)
    requires dir == [] || dir[|dir| - 1] == '/'
    requires page != [] && NoSlash(page)
    ensures CurrentPage(dir + page) == page
    ensures CurrentPage(dir + "/") == "index.html"
  {
    LastSegmentOfPage(dir, page);
  }

  lemma LastSegmentOfPage(dir: string, page: string)
    requires dir == [] || dir[|dir| - 1] == '/'
    requires NoSlash(page)
    ensures LastSegment(dir + page) == page
  {
    var s := dir + page;
    forall j | |dir| <= j < |s| ensures s[j] != '/' {
      assert s[j] == page[j - |dir|];
    }
    SegmentStartAt(s, |dir|, |s|);
    assert s[|dir|..] == page;
  }

  /** The scan back from `e` stops at `lo` when nothing from `lo` up to `e` is a
      '/' and `lo` is the start or follows a '/'. */
  lemma {:induction false} SegmentStartAt(path: string, lo: nat, e: nat)
    requires lo <= e <= |path|
    requires forall j :: lo <= j < e ==> path[j] != '/'
    requires lo == 0 || path[lo - 1] == '/'
    ensures SegmentStart(path, e) == lo
    decreases e
  {
    if e > lo {
      SegmentStartAt(path, lo, e - 1);
    }
  }

  /** `highlightActiveLink`: every navigation link whose `href` is the current page
      gets the `active` class; no link loses it. */
  method HighlightActiveLink(path: string, hrefs: seq<Option<string>>, active: array<bool>)
    requires active.Length == |hrefs|
    modifies active
    ensures forall i :: 0 <= i < |hrefs| ==>
              active[i] == (old(active[i]) || hrefs[i] == Some(CurrentPage(path)))
  {
    var currentPage := CurrentPage(path);
    // the source also accepts "index.html" when the page is empty, which never happens
    var emptyPage := currentPage == [];
    assert !emptyPage;
    var i := 0;
    while i < active.Length
      invariant 0 <= i <= active.Length
      invariant forall m :: 0 <= m < i ==> active[m] == (old(active[m]) || hrefs[m] == Some(currentPage))
      invariant forall m :: i <= m < active.Length ==> active[m] == old(active[m])
    {
      var href := hrefs[i];
      if href == Some(currentPage) || (emptyPage && href == Some("index.html")) {
        active[i] := true;
      }
      i := i + 1;
    }
  }

  // ================================================================ validators

  /** main.js's `validateEmail`: the address pattern on the text as it is. */
  predicate ValidateEmail(email: string) {
    EmailRegex(email)
  }

  /** main.js's `validatePhone`: ten or more characters, each a digit, white space,
      '-', '+', '(' or ')'. */
  predicate ValidatePhone(phone: string) {
    PhoneCharsRegex(phone)
  }

  /** The two e-mail validators agree: lower-casing changes no character the pattern
      looks at. */
  lemma EmailValidatorsAgree(email: string)
    ensures ValidateEmail(email) == Contact.ValidateEmail(email)
  {
    EmailRegexIgnoresCase(email);
  }

  /** Every phone number the contact page accepts is accepted here. */
  lemma ContactPhoneAccepted(phone: string)
    requires Contact.ValidatePhone(phone)
    ensures ValidatePhone(phone)
  {
    Contact.ValidatePhoneSpec(phone);
    DigitCountBound(phone);
  }

  lemma {:induction false} DigitCountBound(s: string)
    ensures Contact.DigitCount(s) <= |s|
    decreases |s|
  {
    if s != [] {
      DigitCountBound(s[1..]);
    }
  }

  /** The converse fails: ten '(' pass here, but nothing of them is left for the
      contact page's digit pattern. */
  lemma TenParenthesesOnlyHere()
    ensures ValidatePhone("((((((((((")
    ensures !Contact.ValidatePhone("((((((((((")
  {
    var s := "((((((((((";
    assert Filter(s, Contact.NotSeparator) == [] by {
      FilterNone(s);
    }
  }

  lemma {:induction false} FilterNone(s: string)
    requires forall i :: 0 <= i < |s| ==> s[i] == '('
    ensures Filter(s, Contact.NotSeparator) == []
    decreases |s|
  {
    if s != [] {
      FilterNone(s[1..]);
    }
  }
}
