/**
 * The de-duplicating toast store of `use-toast.js`: `addToast` and `removeToast`
 * are reducers from the toast list to a new list (or to the same one), and
 * `toast()` fills in the default variant. Toast ids are `Date.now()` values,
 * passed in as `now`.
 */
module Toasts {
  import opened Wrappers

  /** What a caller passes: each field a string or undefined. */
  datatype ToastInput = ToastInput(title: Option<string>, description: Option<string>, variant: Option<string>)

  /** A stored toast: the caller's fields and the id stamped on it. */
  datatype Toast = Toast(title: Option<string>, description: Option<string>, variant: Option<string>, id: int)

  /** `toast.variant || "default"`: undefined and the empty string both read as "default". */
  function VariantOrDefault(variant: Option<string>): string {
    if variant.None? || variant.value == "" then "default" else variant.value
  }

  /** The comparison inside `state.toasts.some(...)`. */
  predicate SameAs(t: Toast, toast: ToastInput) {
    t.title == toast.title && t.description == toast.description && t.variant == Some(VariantOrDefault(toast.variant))
  }

  predicate IsDuplicate(toasts: seq<Toast>, toast: ToastInput) {
    exists i | 0 <= i < |toasts| :: SameAs(toasts[i], toast)
  }

  /** `{ ...toast, id: Date.now() }` */
  function Stamp(toast: ToastInput, now: int): Toast {
    Toast(toast.title, toast.description, toast.variant, now)
  }

  /** `addToast`, as written: a duplicate leaves the state as it is, anything else is appended. */
  function AddToast(toasts: seq<Toast>, toast: ToastInput, now: int): seq<Toast> {
    if IsDuplicate(toasts, toast) then toasts else toasts + [Stamp(toast, now)]
  }

  /** `removeToast`: `filter(t => t.id !== id)`. */
  function RemoveToast(toasts: seq<Toast>, id: int): (r: seq<Toast>)
    ensures |r| <= |toasts|
    ensures forall i | 0 <= i < |r| :: r[i].id != id
  {
    if toasts == [] then []
    else if toasts[0].id != id then [toasts[0]] + RemoveToast(toasts[1..], id)
    else RemoveToast(toasts[1..], id)
  }

  /** `toast({ title, description, variant = "default" })`: the default applies to undefined only. */
  function ToastCall(title: Option<string>, description: Option<string>, variant: Option<string>): (input: ToastInput)
    ensures input.title == title && input.description == description
    ensures input.variant == Some(variant.GetOr("default"))
  {
    ToastInput(title, description, Some(variant.GetOr("default")))
  }

  /**
   * `addToast` leaves a duplicate's state unchanged; otherwise it appends one
   * toast carrying the new id, keeping the earlier toasts in place and in order.
   */
  lemma AddToastAppendsOrKeeps(toasts: seq<Toast>, toast: ToastInput, now: int)
    ensures var r := AddToast(toasts, toast, now);
      && |toasts| <= |r| <= |toasts| + 1
      && r[..|toasts|] == toasts
      && (IsDuplicate(toasts, toast) <==> r == toasts)
      && (!IsDuplicate(toasts, toast) ==> r[|toasts|] == Stamp(toast, now))
  {
    var r := AddToast(toasts, toast, now);
    if !IsDuplicate(toasts, toast) {
      assert |r| != |toasts|;
    }
  }

  /** A toast stored with an undefined variant never counts as a duplicate of anything. */
  lemma UndefinedVariantNeverMatches(t: Toast, toast: ToastInput)
    requires t.variant.None?
    ensures !SameAs(t, toast)
  {
  }

  /** `removeToast(id)` keeps exactly the toasts with another id. */
  lemma {:induction false} RemoveToastMembership(toasts: seq<Toast>, id: int, t: Toast)
    ensures t in RemoveToast(toasts, id) <==> t in toasts && t.id != id
  {
    if toasts != [] {
      RemoveToastMembership(toasts[1..], id, t);
      assert toasts == [toasts[0]] + toasts[1..];
    }
  }

  /** Filtering respects concatenation, so the kept toasts stay in order. */
  lemma {:induction false} RemoveToastAppend(a: seq<Toast>, b: seq<Toast>, id: int)
    ensures RemoveToast(a + b, id) == RemoveToast(a, id) + RemoveToast(b, id)
  {
    if a == [] {
      assert a + b == b;
    } else {
      assert (a + b)[1..] == a[1..] + b;
      RemoveToastAppend(a[1..], b, id);
    }
  }

  /** Removing an id that no toast has changes nothing; removing twice is removing once. */
  lemma {:induction false} RemoveToastAbsentAndTwice(toasts: seq<Toast>, id: int)
    ensures (forall i | 0 <= i < |toasts| :: toasts[i].id != id) ==> RemoveToast(toasts, id) == toasts
    ensures RemoveToast(RemoveToast(toasts, id), id) == RemoveToast(toasts, id)
  {
    if toasts != [] {
      RemoveToastAbsentAndTwice(toasts[1..], id);
    }
  }

  /** No two stored toasts share title, description and variant. */
  predicate NoDuplicateContent(toasts: seq<Toast>) {
    forall i, j | 0 <= i < j < |toasts| ::
      !(toasts[i].title == toasts[j].title && toasts[i].description == toasts[j].description
        && toasts[i].variant == toasts[j].variant)
  }

  /** Every stored variant is a non-empty string. */
  predicate VariantsNonEmpty(toasts: seq<Toast>) {
    forall i | 0 <= i < |toasts| :: toasts[i].variant.Some? && toasts[i].variant.value != ""
  }

  /**
   * As long as no caller passes the empty string as variant, adding through
   * `toast()` keeps the store free of duplicates.
   */
  lemma ToastCallKeepsNoDuplicates(toasts: seq<Toast>, title: Option<string>, description: Option<string>,
                                   variant: Option<string>, now: int)
    requires NoDuplicateContent(toasts) && VariantsNonEmpty(toasts)
    requires variant != Some("")
    ensures NoDuplicateContent(AddToast(toasts, ToastCall(title, description, variant), now))
    ensures VariantsNonEmpty(AddToast(toasts, ToastCall(title, description, variant), now))
  {
    var input := ToastCall(title, description, variant);
    var r := AddToast(toasts, input, now);
    if !IsDuplicate(toasts, input) {
      forall i | 0 <= i < |toasts|
        ensures !(toasts[i].title == r[|toasts|].title && toasts[i].description == r[|toasts|].description
                  && toasts[i].variant == r[|toasts|].variant)
      {
        assert !SameAs(toasts[i], input);
      }
    }
  }

  /**
   * The empty-string variant slips past the duplicate check: `toast()` keeps ""
   * (its default covers undefined only), the check compares against "default",
   * so the same toast is stored twice.
   */
  lemma EmptyVariantIsStoredTwice(title: Option<string>, description: Option<string>)
    ensures var input := ToastCall(title, description, Some(""));
            var twice := AddToast(AddToast([], input, 1), input, 2);
            |twice| == 2 && !NoDuplicateContent(twice)
  {
    var input := ToastCall(title, description, Some(""));
    var once := AddToast([], input, 1);
    assert once == [Stamp(input, 1)];
    assert !SameAs(once[0], input);
    assert !IsDuplicate(once, input);
    var twice := AddToast(once, input, 2);
    assert twice == [Stamp(input, 1), Stamp(input, 2)];
    assert twice[0].variant == twice[1].variant;
  }

  /** The comparison the store evidently intends: both variants read with the "default" fallback. */
  predicate SameContent(t: Toast, toast: ToastInput) {
    t.title == toast.title && t.description == toast.description
    && VariantOrDefault(t.variant) == VariantOrDefault(toast.variant)
  }

  /** `addToast` with the corrected comparison. */
  function AddToastDeduplicated(toasts: seq<Toast>, toast: ToastInput, now: int): seq<Toast> {
    if exists i | 0 <= i < |toasts| :: SameContent(toasts[i], toast) then toasts
    else toasts + [Stamp(toast, now)]
  }

  /** No two stored toasts show the same title, description and (defaulted) variant. */
  predicate NoDuplicateDisplay(toasts: seq<Toast>) {
    forall i, j | 0 <= i < j < |toasts| ::
      !(toasts[i].title == toasts[j].title && toasts[i].description == toasts[j].description
        && VariantOrDefault(toasts[i].variant) == VariantOrDefault(toasts[j].variant))
  }

  /** With the corrected comparison, every input whatsoever keeps the store free of duplicates. */
  lemma DeduplicatedKeepsNoDuplicates(toasts: seq<Toast>, toast: ToastInput, now: int)
    requires NoDuplicateDisplay(toasts)
    ensures NoDuplicateDisplay(AddToastDeduplicated(toasts, toast, now))
    ensures |AddToastDeduplicated(toasts, toast, now)| <= |toasts| + 1
  {
    var r := AddToastDeduplicated(toasts, toast, now);
    if !exists i | 0 <= i < |toasts| :: SameContent(toasts[i], toast) {
      forall i | 0 <= i < |toasts|
        ensures !(toasts[i].title == r[|toasts|].title && toasts[i].description == r[|toasts|].description
                  && VariantOrDefault(toasts[i].variant) == VariantOrDefault(r[|toasts|].variant))
      {
        assert !SameContent(toasts[i], toast);
      }
    }
  }
}
