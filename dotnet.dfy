/**
 * The few .NET framework behaviours the watchdog relies on: the two string
 * tests `string.IsNullOrEmpty` / `string.IsNullOrWhiteSpace`, and
 * `CancellationTokenSource.TryReset`.
 */
module DotNet {
  import opened Wrappers

  /** `char.IsWhiteSpace`: the Unicode separators (Zs, Zl, Zp) plus U+0009..U+000D and U+0085. */
  predicate IsWhiteSpace(c: char) {
    || 9 <= c as int <= 13
    || c as int == 0x20
    || c as int == 0x85
    || c as int == 0xA0
    || c as int == 0x1680
    || 0x2000 <= c as int <= 0x200A
    || c as int == 0x2028
    || c as int == 0x2029
    || c as int == 0x202F
    || c as int == 0x205F
    || c as int == 0x3000
  }

  /** `string.IsNullOrEmpty`, a C# string being `None` when it is null. */
  predicate IsNullOrEmpty(s: Option<string>) {
    s.None? || s.value == ""
  }

  /** `string.IsNullOrWhiteSpace`. */
  predicate IsNullOrWhiteSpace(s: Option<string>) {
    s.None? || forall i :: 0 <= i < |s.value| ==> IsWhiteSpace(s.value[i])
  }

  /** Every null-or-empty string is null-or-white-space, but not conversely. */
  lemma EmptyIsWhiteSpace(s: Option<string>)
    ensures IsNullOrEmpty(s) ==> IsNullOrWhiteSpace(s)
    ensures !IsNullOrEmpty(Some(" ")) && IsNullOrWhiteSpace(Some(" "))
  {
    assert IsWhiteSpace(" "[0]);
  }

  /**
   * `CancellationTokenSource.TryReset` on a source whose only state is
   * whether cancellation was requested: it succeeds, leaving the source
   * uncancelled, exactly when no cancellation had been requested; on a
   * cancelled source it fails and does nothing.
   * Result: (succeeded, cancellation requested afterwards).
   */
  function TryReset(cancelled: bool): (r: (bool, bool))
    ensures r.0 <==> !cancelled
    ensures r.1 == cancelled
  {
    if cancelled then (false, true) else (true, false)
  }
}
