/** The effective value of an extracted run: each style attribute is the user's
    override when present, else the baseline taken from the document. The same
    `?? baseline` merge appears in lib/pdf-utils.ts, text-layer.tsx and toolbar.tsx. */
module Overlay {
  import opened Types
  import EditorContext

  datatype Style = Style(fontSize: real, isBold: bool, isItalic: bool, color: string, cssFontFamily: string)

  /** The attributes as extracted from the document. */
  function BaselineStyle(t: ExtractedText): Style {
    Style(t.pdfFontSize, t.isBold, t.isItalic, t.color, t.cssFontFamily)
  }

  /** `t.styleEdits?.f ?? t.f` for each of the five attributes. */
  function Effective(t: ExtractedText): Style {
    var e := t.styleEdits.GetOr(NoStyleEdits);
    Style(e.fontSize.GetOr(t.pdfFontSize), e.isBold.GetOr(t.isBold), e.isItalic.GetOr(t.isItalic),
          e.color.GetOr(t.color), e.cssFontFamily.GetOr(t.cssFontFamily))
  }

  /** `editedStr ?? originalStr`: the string shown and drawn for a run. */
  function CurrentString(t: ExtractedText): string {
    t.editedStr.GetOr(t.originalStr)
  }

  /** The filter of the compiler and of the toolbar's edit counter: a run counts as
      edited when its edited string differs from the original or it has a style record. */
  predicate IsEdited(t: ExtractedText) {
    (t.editedStr.Some? && t.editedStr.value != t.originalStr) || t.styleEdits.Some?
  }

  /** The looser test of the on-screen layer: any edited string or style record. */
  predicate ShowsAsEdited(t: ExtractedText) {
    t.editedStr.Some? || t.styleEdits.Some?
  }

  /** Override precedence, field by field, and the baseline when there is no record. */
  lemma EffectivePrecedence(t: ExtractedText)
    ensures t.styleEdits.None? ==> Effective(t) == BaselineStyle(t)
    ensures t.styleEdits.Some? && t.styleEdits.value.fontSize.Some? ==>
      Effective(t).fontSize == t.styleEdits.value.fontSize.value
    ensures t.styleEdits.Some? && t.styleEdits.value.isBold.Some? ==>
      Effective(t).isBold == t.styleEdits.value.isBold.value
    ensures t.styleEdits.Some? && t.styleEdits.value.isItalic.Some? ==>
      Effective(t).isItalic == t.styleEdits.value.isItalic.value
    ensures t.styleEdits.Some? && t.styleEdits.value.color.Some? ==>
      Effective(t).color == t.styleEdits.value.color.value
    ensures t.styleEdits.Some? && t.styleEdits.value.cssFontFamily.Some? ==>
      Effective(t).cssFontFamily == t.styleEdits.value.cssFontFamily.value
    ensures (t.styleEdits.None? || t.styleEdits.value.fontSize.None?) ==> Effective(t).fontSize == t.pdfFontSize
    ensures (t.styleEdits.None? || t.styleEdits.value.isBold.None?) ==> Effective(t).isBold == t.isBold
    ensures (t.styleEdits.None? || t.styleEdits.value.isItalic.None?) ==> Effective(t).isItalic == t.isItalic
    ensures (t.styleEdits.None? || t.styleEdits.value.color.None?) ==> Effective(t).color == t.color
    ensures (t.styleEdits.None? || t.styleEdits.value.cssFontFamily.None?) ==>
      Effective(t).cssFontFamily == t.cssFontFamily
  {
  }

  /** A record that overrides only the colour leaves every other attribute at its baseline. */
  lemma OnlyColorOverridden(t: ExtractedText, c: string)
    requires t.styleEdits == Some(StyleEdits(None, None, None, Some(c), None))
    ensures Effective(t) == BaselineStyle(t).(color := c)
  {
  }

  /** Dispatching a style patch and then reading the effective style gives the
      patch laid over the previous effective style. */
  lemma PatchOverEffective(t: ExtractedText, edits: StyleEdits)
    ensures var after := Effective(t.(styleEdits := Some(EditorContext.MergeStyleEdits(t.styleEdits, edits))));
      var before := Effective(t);
      after == Style(edits.fontSize.GetOr(before.fontSize), edits.isBold.GetOr(before.isBold),
                     edits.isItalic.GetOr(before.isItalic), edits.color.GetOr(before.color),
                     edits.cssFontFamily.GetOr(before.cssFontFamily))
  {
  }

  /** Every run the compiler redraws is also shown as edited on screen, but not
      conversely: an edited string equal to the original shows as edited only. */
  lemma EditedImpliesShown(t: ExtractedText)
    ensures IsEdited(t) ==> ShowsAsEdited(t)
    ensures t.editedStr == Some(t.originalStr) && t.styleEdits.None? ==> ShowsAsEdited(t) && !IsEdited(t)
  {
  }
}
