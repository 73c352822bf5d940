/** The customer feedback feature of js/feedback.js: a five-star rating widget, a
    list of feedback kept in local storage (newest first, at most fifty), the form
    that validates and saves an entry, and the star markup of the feedback cards. */
module Feedback {
  import opened Seqs
  import opened Text
  import opened Storage
  import opened Notices

  /** `MAX_FEEDBACK_LENGTH`. */
  const MaxFeedbackLength: nat := 250
  /** `MAX_DISPLAY_ITEMS`, the default of `getLatest`. */
  const MaxDisplayItems: int := 6
  /** How many entries `save` keeps. */
  const MaxStored: nat := 50
  const StarCount: nat := 5

  /** One saved entry. Its id and dates come from the clock when it is created. */
  datatype Feedback = Feedback(
    id: int, name: string, rating: int, message: string, date: string, dateFormatted: string)

  // ================================================================ storage

  /** The list `save` writes: the new entry first, then the previous list, cut to
      fifty entries. */
  function SavedList(previous: seq<Feedback>, feedback: Feedback): seq<Feedback> {
    var all := [feedback] + previous;
    all[..if |all| < MaxStored then |all| else MaxStored]
  }

  /** The saved list starts with the new entry, continues with the previous entries
      in their order, and holds `min(previous + 1, 50)` entries. */
  lemma SavedListSpec(previous: seq<Feedback>, feedback: Feedback)
    ensures var r := SavedList(previous, feedback);
            |r| == (if |previous| + 1 < MaxStored then |previous| + 1 else MaxStored) &&
            r[0] == feedback && r[1..] == previous[..|r| - 1]
  {
    var r := SavedList(previous, feedback);
    assert r[1..] == ([feedback] + previous)[1..|r|];
    assert ([feedback] + previous)[1..] == previous;
  }

  /** However many entries are saved one after another, at most fifty are kept, and
      the newest comes first. */
  lemma {:induction false} SaveManyBounded(previous: seq<Feedback>, entries: seq<Feedback>)
    requires |previous| <= MaxStored
    ensures |SaveAll(previous, entries)| <= MaxStored
    ensures entries != [] ==> SaveAll(previous, entries)[0] == entries[|entries| - 1]
    decreases |entries|
  {
    if entries != [] {
      var init := entries[..|entries| - 1];
      SaveManyBounded(previous, init);
      SavedListSpec(SaveAll(previous, init), entries[|entries| - 1]);
    }
  }

  /** The list after saving `entries`, in order, onto `previous`. */
  function SaveAll(previous: seq<Feedback>, entries: seq<Feedback>): seq<Feedback>
    decreases |entries|
  {
    if entries == [] then previous
    else SavedList(SaveAll(previous, entries[..|entries| - 1]), entries[|entries| - 1])
  }

  /** Where `slice(0, end)` stops on a list of length `len`: a negative end counts
      from the back. */
  function SliceEnd(len: nat, end: int): (k: nat)
    ensures k <= len
  {
    if end < 0 then (if len + end < 0 then 0 else len + end)
    else if end < len then end else len
  }

  class FeedbackStore {
    /** What local storage holds under the feedback key. */
    var slot: Slot<Feedback>
    /** Whether writing or removing the key succeeds; when it throws, the error is
        logged and `false` returned. */
    var writable: bool

    constructor (stored: Slot<Feedback>, canWrite: bool)
      ensures slot == stored && writable == canWrite
    {
      slot := stored;
      writable := canWrite;
    }

    /** `getAll`: the stored list, or the empty list when the key is missing or
        cannot be read. */
    function GetAll(): (r: seq<Feedback>)
      reads this
      ensures slot.Holds? ==> r == slot.items
      ensures !slot.Holds? ==> r == []
    {
      Load(slot)
    }

    /** `save`: puts the entry in front of the stored list, keeps fifty, writes. */
    method Save(feedback: Feedback) returns (ok: bool)
      modifies this`slot
      ensures ok == writable
      ensures slot == if writable then Holds(SavedList(old(GetAll()), feedback)) else old(slot)
    {
      var all := GetAll();
      all := [feedback] + all;
      var trimmed := all[..if |all| < MaxStored then |all| else MaxStored];
      if !writable {
        return false;
      }
      slot := Holds(trimmed);
      return true;
    }

    /** `clear`: removes the key. */
    method Clear() returns (ok: bool)
      modifies this`slot
      ensures ok == writable
      ensures slot == if writable then Missing else old(slot)
      ensures writable ==> GetAll() == []
    {
      if !writable {
        return false;
      }
      slot := Missing;
      return true;
    }

    /** `getLatest(count)`: `getAll().slice(0, count)`. */
    function GetLatest(count: int := MaxDisplayItems): (r: seq<Feedback>)
      reads this
      ensures r == GetAll()[..SliceEnd(|GetAll()|, count)]
    {
      var all := GetAll();
      all[..SliceEnd(|all|, count)]
    }
  }

  /** For a count that is not negative, the latest entries are the first
      `min(count, length)` stored ones; six by default. */
  lemma GetLatestSpec(store: FeedbackStore, count: int)
    requires count >= 0
    ensures var all := store.GetAll();
            var k := if count < |all| then count else |all|;
            store.GetLatest(count) == all[..k] && |store.GetLatest(count)| == k
    ensures |store.GetLatest()| == if |store.GetAll()| < 6 then |store.GetAll()| else 6
  {
  }

  /** After a successful save, the latest entries start with the one just saved. */
  lemma SaveThenLatest(previous: seq<Feedback>, feedback: Feedback, count: int)
    requires count > 0
    ensures var all := SavedList(previous, feedback);
            all[..SliceEnd(|all|, count)][0] == feedback
  {
    SavedListSpec(previous, feedback);
  }

  // ================================================================ star rating widget

  /** The two style classes a star carries. */
  datatype Star = Star(active: bool, hover: bool)

  class StarRating {
    var rating: int
    var stars: array<Star>

    predicate Valid()
      reads this
    {
      stars.Length == StarCount
    }

    /** Builds the five stars, none highlighted, with the rating at 0. */
    constructor ()
      ensures Valid() && fresh(stars) && rating == 0
      ensures forall i :: 0 <= i < stars.Length ==> stars[i] == Star(false, false)
    {
      rating := 0;
      var built := new Star[StarCount];
      var i := 0;
      while i < StarCount
        invariant 0 <= i <= StarCount
        invariant forall j :: 0 <= j < i ==> built[j] == Star(false, false)
      {
        built[i] := Star(false, false);
        i := i + 1;
      }
      stars := built;
    }

    /** `highlightStars(count)`: the stars before position `count` become active,
        the others show the hover style. */
    method HighlightStars(count: int)
      requires Valid()
      modifies stars
      ensures forall i :: 0 <= i < stars.Length ==> stars[i] == Star(i < count, !(i < count))
    {
      var index := 0;
      while index < stars.Length
        invariant 0 <= index <= stars.Length
        invariant forall i :: 0 <= i < index ==> stars[i] == Star(i < count, !(i < count))
      {
        if index < count {
          stars[index] := Star(true, false);
        } else {
          stars[index] := Star(false, true);
        }
        index := index + 1;
      }
    }

    /** `setRating`: stores the rating and highlights that many stars. */
    method SetRating(r: int)
      requires Valid()
      modifies this`rating, stars
      ensures Valid() && rating == r
      ensures forall i :: 0 <= i < stars.Length ==> stars[i] == Star(i < r, !(i < r))
    {
      rating := r;
      HighlightStars(r);
    }

    /** The pointer leaving the widget highlights the stored rating again. */
    method MouseLeave()
      requires Valid()
      modifies stars
      ensures forall i :: 0 <= i < stars.Length ==> stars[i] == Star(i < rating, !(i < rating))
    {
      HighlightStars(rating);
    }

    function GetRating(): int
      reads this
    {
      rating
    }

    /** `reset`: rating 0, and no star active or hovered. */
    method Reset()
      requires Valid()
      modifies this`rating, stars
      ensures Valid() && rating == 0
      ensures forall i :: 0 <= i < stars.Length ==> stars[i] == Star(false, false)
    {
      rating := 0;
      var index := 0;
      while index < stars.Length
        invariant 0 <= index <= stars.Length && rating == 0
        invariant forall i :: 0 <= i < index ==> stars[i] == Star(false, false)
      {
        stars[index] := Star(false, false);
        index := index + 1;
      }
    }
  }

  // ================================================================ the form

  /** The outcome of `validateForm`, naming the first rule broken. */
  datatype Verdict = NameTooShort | NoRating | MessageTooShort | MessageTooLong | Accepted

  /** `validateForm` on the raw field values and the rating: the rules are tried in
      order and the first one broken decides. */
  function Validate(name: string, message: string, rating: int): Verdict {
    var n := Trim(name);
    var m := Trim(message);
    if |n| < 2 then NameTooShort
    else if rating == 0 then NoRating
    else if |m| < 10 then MessageTooShort
    else if |m| > MaxFeedbackLength then MessageTooLong
    else Accepted
  }

  /** The form is accepted exactly when no rule is broken, and a verdict names a rule
      only when every earlier rule holds. */
  lemma ValidateSpec(name: string, message: string, rating: int)
    ensures Validate(name, message, rating) == Accepted <==>
              |Trim(name)| >= 2 && rating != 0 && 10 <= |Trim(message)| <= MaxFeedbackLength
    ensures Validate(name, message, rating) == NameTooShort <==> |Trim(name)| < 2
    ensures Validate(name, message, rating) == NoRating <==> |Trim(name)| >= 2 && rating == 0
    ensures Validate(name, message, rating) == MessageTooShort <==>
              |Trim(name)| >= 2 && rating != 0 && |Trim(message)| < 10
    ensures Validate(name, message, rating) == MessageTooLong <==>
              |Trim(name)| >= 2 && rating != 0 && |Trim(message)| > MaxFeedbackLength
    ensures Trim(name) == [] ==> Validate(name, message, rating) == NameTooShort
  {
  }

  /** The message each refusal shows. */
  function VerdictMessage(v: Verdict): string {
    match v
    case NameTooShort => "Please enter your full name"
    case NoRating => "Please select a star rating"
    case MessageTooShort => "Please enter at least 10 characters"
    case MessageTooLong => "Message is too long (max 250 characters)"
    case Accepted => ""
  }

  /** The character counter under the message box. */
  function CounterText(length: nat): string {
    NatToString(length) + "/250 characters"
  }

  /** `remaining < 20`, the test for the danger colour. */
  predicate CounterDanger(length: nat) {
    MaxFeedbackLength - length < 20
  }

  /** The counter starts with the message length, which `parseInt` reads back, and
      turns to the danger colour exactly past 230 characters. */
  lemma CounterSpec(length: nat)
    ensures ParseInt(CounterText(length)) == Some(length)
    ensures CounterDanger(length) <==> length > 230
  {
    ParseIntOfDigitsThen(NatToString(length), "/250 characters");
    NatToStringRoundTrip(length);
  }

  class FeedbackForm {
    var name: string
    var message: string
    var currentRating: int
    var starRating: StarRating
    var counterText: string
    var counterDanger: bool
    /** The error shown under the name box, and under the message box. */
    var nameError: Option<string>
    var messageError: Option<string>
    var notices: seq<Notice>
    var store: FeedbackStore

    predicate Valid()
      reads this, starRating
    {
      starRating.Valid() && starRating.rating == currentRating
    }

    constructor (widget: StarRating, feedbackStore: FeedbackStore)
      requires widget.Valid() && widget.rating == 0
      ensures Valid() && starRating == widget && store == feedbackStore
      ensures name == "" && message == "" && currentRating == 0
      ensures counterText == CounterText(0) && !counterDanger
      ensures nameError.None? && messageError.None? && notices == []
    {
      name := "";
      message := "";
      currentRating := 0;
      starRating := widget;
      store := feedbackStore;
      nameError := None;
      messageError := None;
      notices := [];
      counterText := CounterText(0);
      counterDanger := false;
    }

    /** `updateCharCounter`. */
    method UpdateCharCounter()
      modifies this`counterText, this`counterDanger
      ensures counterText == CounterText(|message|)
      ensures counterDanger <==> |message| > 230
    {
      var length := |message|;
      var remaining := MaxFeedbackLength - length;
      counterText := NatToString(length) + "/250 characters";
      counterDanger := remaining < 20;
    }

    /** Typing in the message box. */
    method TypeMessage(text: string)
      modifies this`message, this`counterText, this`counterDanger
      ensures message == text && counterText == CounterText(|text|)
    {
      message := text;
      UpdateCharCounter();
    }

    /** A click on star `r`: the widget stores and highlights it, and its change
        callback copies it into the form. */
    method ClickStar(r: int)
      requires Valid() && 1 <= r <= StarCount
      modifies this`currentRating, starRating, starRating.stars
      ensures Valid() && currentRating == r
      ensures forall i :: 0 <= i < starRating.stars.Length ==> starRating.stars[i] == Star(i < r, !(i < r))
    {
      starRating.SetRating(r);
      currentRating := r;
    }

    /** `handleSubmit`, given the clock's reading for the new entry: clears the
        errors; a refused form shows the first broken rule's message (under its box
        as well, except for the rating); an accepted one is saved, then thanked and
        reset, or reported as not saved. */
    method HandleSubmit(stamp: int, date: string, dateFormatted: string)
      requires Valid()
      modifies this`name, this`message, this`currentRating, this`nameError, this`messageError,
               this`counterText, this`counterDanger, this`notices, starRating, starRating.stars, store`slot
      ensures Valid()
      ensures var verdict := Validate(old(name), old(message), old(currentRating));
              && (verdict != Accepted ==>
                    store.slot == old(store.slot) && name == old(name) && message == old(message) &&
                    currentRating == old(currentRating) && starRating.rating == old(starRating.rating) &&
                    starRating.stars[..] == old(starRating.stars[..]) &&
                    counterText == old(counterText) && counterDanger == old(counterDanger) &&
                    notices == old(notices) + [Notice(Error, VerdictMessage(verdict))] &&
                    nameError == (if verdict == NameTooShort then Some(VerdictMessage(verdict)) else None) &&
                    messageError == (if verdict == MessageTooShort || verdict == MessageTooLong
                                     then Some(VerdictMessage(verdict)) else None))
              && (verdict == Accepted ==>
                    var entry := Feedback(stamp, Trim(old(name)), old(currentRating), Trim(old(message)),
                                          date, dateFormatted);
                    store.slot == (if store.writable then Holds(SavedList(old(store.GetAll()), entry))
                                   else old(store.slot)))
              && (verdict == Accepted && store.writable ==>
                    notices == old(notices) + [Notice(Success, "✅ Thanks for your feedback!")] &&
                    name == "" && message == "" && currentRating == 0 && starRating.rating == 0 &&
                    nameError.None? && messageError.None? &&
                    counterText == CounterText(0) && !counterDanger &&
                    forall i :: 0 <= i < starRating.stars.Length ==> starRating.stars[i] == Star(false, false))
              && (verdict == Accepted && !store.writable ==>
                    notices == old(notices) + [Notice(Error, "Failed to save feedback. Please try again.")] &&
                    name == old(name) && message == old(message) && currentRating == old(currentRating) &&
                    nameError.None? && messageError.None? &&
                    starRating.rating == old(starRating.rating) &&
                    starRating.stars[..] == old(starRating.stars[..]) &&
                    counterText == old(counterText) && counterDanger == old(counterDanger))
    {
      nameError := None;
      messageError := None;
      var verdict := Validate(name, message, currentRating);
      if verdict != Accepted {
        ShowRefusal(verdict);
        return;
      }
      var entry := Feedback(stamp, Trim(name), currentRating, Trim(message), date, dateFormatted);
      SaveEntry(entry);
    }

    /** A refused form: the rule's message under its box (the rating has none) and as
        an error notification. */
    method ShowRefusal(verdict: Verdict)
      requires verdict != Accepted
      modifies this`nameError, this`messageError, this`notices
      ensures notices == old(notices) + [Notice(Error, VerdictMessage(verdict))]
      ensures nameError == if verdict == NameTooShort then Some(VerdictMessage(verdict)) else old(nameError)
      ensures messageError == if verdict == MessageTooShort || verdict == MessageTooLong
                              then Some(VerdictMessage(verdict)) else old(messageError)
    {
      var text := VerdictMessage(verdict);
      if verdict == NameTooShort {
        nameError := Some(text);
      } else if verdict != NoRating {
        messageError := Some(text);
      }
      notices := notices + [Notice(Error, text)];
    }

    /** An accepted form: saves the entry, then thanks and resets, or reports the
        failure. */
    method SaveEntry(entry: Feedback)
      requires Valid()
      modifies this`name, this`message, this`currentRating, this`nameError, this`messageError,
               this`counterText, this`counterDanger, this`notices, starRating, starRating.stars, store`slot
      ensures Valid()
      ensures store.slot == if store.writable then Holds(SavedList(old(store.GetAll()), entry)) else old(store.slot)
      ensures store.writable ==>
                notices == old(notices) + [Notice(Success, "✅ Thanks for your feedback!")] &&
                name == "" && message == "" && currentRating == 0 && starRating.rating == 0 &&
                nameError.None? && messageError.None? &&
                counterText == CounterText(0) && !counterDanger &&
                forall i :: 0 <= i < starRating.stars.Length ==> starRating.stars[i] == Star(false, false)
      ensures !store.writable ==>
                notices == old(notices) + [Notice(Error, "Failed to save feedback. Please try again.")] &&
                name == old(name) && message == old(message) && currentRating == old(currentRating) &&
                nameError == old(nameError) && messageError == old(messageError) &&
                starRating.rating == old(starRating.rating) &&
                starRating.stars[..] == old(starRating.stars[..]) &&
                counterText == old(counterText) && counterDanger == old(counterDanger)
    {
      var saved := store.Save(entry);
      if saved {
        notices := notices + [Notice(Success, "✅ Thanks for your feedback!")];
        ResetForm();
      } else {
        notices := notices + [Notice(Error, "Failed to save feedback. Please try again.")];
      }
    }

    /** `resetForm`: empties the boxes and the rating, clears the errors and the
        counter. */
    method ResetForm()
      requires Valid()
      modifies this`name, this`message, this`currentRating, this`nameError, this`messageError,
               this`counterText, this`counterDanger, starRating, starRating.stars
      ensures Valid()
      ensures name == "" && message == "" && currentRating == 0 && starRating.rating == 0
      ensures nameError.None? && messageError.None?
      ensures counterText == CounterText(0) && !counterDanger
      ensures forall i :: 0 <= i < starRating.stars.Length ==> starRating.stars[i] == Star(false, false)
    {
      name := "";
      message := "";
      starRating.Reset();
      currentRating := 0;
      nameError := None;
      messageError := None;
      UpdateCharCounter();
    }
  }

  // ================================================================ the feedback cards

  /** Which of the five stars of a card are filled for `rating`: star `i` (counted
      from 1) exactly when `i <= rating`. */
  function FilledStars(rating: int): (flags: seq<bool>)
    ensures |flags| == StarCount
    ensures forall i :: 0 <= i < StarCount ==> flags[i] == (i + 1 <= rating)
  {
    seq(StarCount, i requires 0 <= i < StarCount => i + 1 <= rating)
  }

  const StarsOpen: string := "<div class=\"star-rating-display\">"
  const StarsClose: string := "</div>"

  function StarSpan(filled: bool): string {
    "<span class=\"" + (if filled then "star filled" else "star empty") + "\">⭐</span>"
  }

  function Spans(flags: seq<bool>): string
    decreases |flags|
  {
    if flags == [] then "" else StarSpan(flags[0]) + Spans(flags[1..])
  }

  function StarsHtml(flags: seq<bool>): string {
    StarsOpen + Spans(flags) + StarsClose
  }

  /** `renderStars(rating)`, appending one span per star to the markup. */
  method RenderStars(rating: int) returns (html: string)
    ensures html == StarsHtml(FilledStars(rating))
  {
    ghost var flags := FilledStars(rating);
    html := StarsOpen;
    var i := 1;
    while i <= 5
      invariant 1 <= i <= 6
      invariant html == StarsOpen + Spans(flags[..i - 1])
    {
      var span := StarSpan(i <= rating);
      AppendSpan(StarsOpen, flags, i);
      html := html + span;
      i := i + 1;
    }
    assert flags[..5] == flags;
    html := html + StarsClose;
  }

  /** One step of the rendering loop: appending the span of star `i` to the markup
      of the stars before it gives the markup of the first `i` stars. */
  lemma AppendSpan(head: string, flags: seq<bool>, i: nat)
    requires 1 <= i <= |flags|
    ensures head + Spans(flags[..i - 1]) + StarSpan(flags[i - 1]) == head + Spans(flags[..i])
  {
    var before, last := flags[..i - 1], flags[i - 1];
    assert flags[..i] == before + [last];
    SpansSnoc(before, last);
    ConcatAssoc(head, Spans(before), StarSpan(last));
  }

  lemma ConcatAssoc(x: string, y: string, z: string)
    ensures x + y + z == x + (y + z)
  {
  }

  lemma {:induction false} SpansSnoc(flags: seq<bool>, last: bool)
    ensures Spans(flags + [last]) == Spans(flags) + StarSpan(last)
    decreases |flags|
  {
    if flags == [] {
      assert [last][1..] == [];
    } else {
      assert (flags + [last])[1..] == flags[1..] + [last];
      SpansSnoc(flags[1..], last);
    }
  }

  /** The markup tells which stars are filled: two different fillings never render
      alike, so a card shows exactly the stars its rating fills. */
  lemma StarsHtmlInjective(a: seq<bool>, b: seq<bool>)
    requires |a| == |b|
    requires StarsHtml(a) == StarsHtml(b)
    ensures a == b
  {
    assert StarsOpen + Spans(a) + StarsClose == StarsOpen + (Spans(a) + StarsClose);
    assert StarsOpen + Spans(b) + StarsClose == StarsOpen + (Spans(b) + StarsClose);
    assert (StarsOpen + (Spans(a) + StarsClose))[|StarsOpen|..] == Spans(a) + StarsClose;
    assert (StarsOpen + (Spans(b) + StarsClose))[|StarsOpen|..] == Spans(b) + StarsClose;
    SpansInjective(a, b, StarsClose);
  }

  lemma {:induction false} SpansInjective(a: seq<bool>, b: seq<bool>, tail: string)
    requires |a| == |b|
    requires Spans(a) + tail == Spans(b) + tail
    ensures a == b
    decreases |a|
  {
    if a != [] {
      SpansCons(a, tail);
      SpansCons(b, tail);
      assert a[0] == b[0];
      SpansInjective(a[1..], b[1..], tail);
    }
  }

  /** Markup that starts with the span of `flags[0]` shows that flag at its 19th
      character, where the two kinds of span first differ, and continues with the
      spans of the remaining flags. */
  lemma SpansCons(flags: seq<bool>, tail: string)
    requires flags != []
    ensures (Spans(flags) + tail)[18] == if flags[0] then 'f' else 'e'
    ensures (Spans(flags) + tail)[|StarSpan(flags[0])|..] == Spans(flags[1..]) + tail
  {
    var head, rest := StarSpan(flags[0]), Spans(flags[1..]) + tail;
    assert Spans(flags) + tail == head + rest;
    assert (head + rest)[18] == head[18];
    assert (head + rest)[|head|..] == rest;
  }

  /** The number of `true` flags. */
  function CountFilled(flags: seq<bool>): nat
    decreases |flags|
  {
    if flags == [] then 0 else (if flags[0] then 1 else 0) + CountFilled(flags[1..])
  }

  /** A card fills as many stars as its rating, bounded by 0 and 5, and they come
      first. */
  lemma FilledStarsCount(rating: int)
    ensures CountFilled(FilledStars(rating)) == if rating < 0 then 0 else if rating > 5 then 5 else rating
  {
    var f := FilledStars(rating);
    var f1, f2, f3, f4 := f[1..], f[2..], f[3..], f[4..];
    assert f1[1..] == f2 && f2[1..] == f3 && f3[1..] == f4 && f4[1..] == [];
    assert CountFilled(f4) == (if f[4] then 1 else 0);
    assert CountFilled(f3) == (if f[3] then 1 else 0) + CountFilled(f4);
    assert CountFilled(f2) == (if f[2] then 1 else 0) + CountFilled(f3);
    assert CountFilled(f1) == (if f[1] then 1 else 0) + CountFilled(f2);
  }
}
