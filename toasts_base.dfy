/**
 * The plain toast store of `use-toast-base.js`: `addToast` always appends and
 * `removeToast` filters by id, with the same toast shape, `toast()` default and
 * `removeToast` as `use-toast.js`.
 */
module ToastsBase {
  import opened Toasts

  /** `addToast` without de-duplication. */
  function AddToast(toasts: seq<Toast>, toast: ToastInput, now: int): (r: seq<Toast>)
    ensures |r| == |toasts| + 1
    ensures r[..|toasts|] == toasts && r[|toasts|] == Stamp(toast, now)
  {
    toasts + [Stamp(toast, now)]
  }

  /** Adding the same content twice stores it twice. */
  lemma SameToastTwiceGivesTwoEntries(toasts: seq<Toast>, toast: ToastInput, now1: int, now2: int)
    ensures var r := AddToast(AddToast(toasts, toast, now1), toast, now2);
      && |r| == |toasts| + 2
      && r[|toasts|].title == r[|toasts| + 1].title
      && r[|toasts|].description == r[|toasts| + 1].description
      && r[|toasts|].variant == r[|toasts| + 1].variant
  {
    var once := AddToast(toasts, toast, now1);
    assert AddToast(once, toast, now2)[|toasts|] == once[|toasts|];
  }

  /** A toast added and then removed by its fresh id is gone, and the rest are as before. */
  lemma {:induction false} AddThenRemoveFreshId(toasts: seq<Toast>, toast: ToastInput, now: int)
    requires forall i | 0 <= i < |toasts| :: toasts[i].id != now
    ensures RemoveToast(AddToast(toasts, toast, now), now) == toasts
  {
    RemoveToastAppend(toasts, [Stamp(toast, now)], now);
    RemoveToastAbsentAndTwice(toasts, now);
    assert RemoveToast([Stamp(toast, now)], now) == [];
  }
}
