/**
 The content a simulated edit writes into the temporary copy of a test file:
 either the replacement text given as `content`, or the original text wrapped
 in `banner` and `footer`.
 */
module FileEdit {

  /** An option that may be left out (`undefined`). */
  datatype Option<+T> = None | Some(value: T) {
    function GetOr(default: T): T {
      match this
      case Some(v) => v
      case None => default
    }
  }

  /** The options of `simulateFileChange`; an omitted options object is
      `EditOptions(None, None, None)`. */
  datatype EditOptions = EditOptions(banner: Option<string>, footer: Option<string>, content: Option<string>)

  /** `options.banner || ""`: an omitted or empty banner adds nothing. */
  function Banner(opts: EditOptions): (banner: string) { opts.banner.GetOr("") }

  /** `options.footer || ""`. */
  function Footer(opts: EditOptions): (footer: string) { opts.footer.GetOr("") }

  /** The new text of the temporary copy, computed from the ORIGINAL file's
      text. A given `content`, even `""`, replaces the text outright;
      otherwise the original text sits between the banner and the footer. */
  function NewContent(opts: EditOptions, original: string): (r: string)
    ensures opts.content.Some? ==> r == opts.content.value
    ensures opts.content.None? ==>
      && |r| == |Banner(opts)| + |original| + |Footer(opts)|
      && r[..|Banner(opts)|] == Banner(opts)
      && r[|Banner(opts)|..|Banner(opts)| + |original|] == original
      && r[|Banner(opts)| + |original|..] == Footer(opts)
  {
    match opts.content
    case Some(c) => c
    case None => Banner(opts) + original + Footer(opts)
  }

  /** An edit is refused as a no-op exactly when its replacement text is the
      original text itself, or when it has no replacement text and neither a
      banner nor a footer (after `|| ""`). */
  lemma NoOpEditExactly(opts: EditOptions, original: string)
    ensures NewContent(opts, original) == original <==>
      (opts.content == Some(original) ||
       (opts.content.None? && Banner(opts) == "" && Footer(opts) == ""))
  {
  }
}
