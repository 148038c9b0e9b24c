/** The fixed HTML the document renderer writes around a resolved `{{KEY}}` or
    `[[REF:id]]` token, and the facts about its characters that keep one substitution
    from forming a new token. */
module Fragments {
  import opened Strings

  const SpanClose: string := "</span>"

  // The class lists are written in pieces of a few words each.
  const VarOpen1: string := "<span class=\"bg-blue-50 "
  const VarOpen2: string := "text-blue-900 font-black "
  const VarOpen3: string := "px-1 rounded-sm border-b "
  const VarOpen4: string := "border-blue-200\">"
  const VarOpen: string := VarOpen1 + VarOpen2 + VarOpen3 + VarOpen4

  const RefOpen1: string := "<span class=\"inline-flex "
  const RefOpen2: string := "items-center "
  const RefOpen3: string := "text-slate-900 "
  const RefOpen4: string := "font-black bg-slate-100 "
  const RefOpen5: string := "px-1.5 py-0.5 rounded "
  const RefOpen6: string := "border border-slate-300 "
  const RefOpen7: string := "mx-1\">"
  const RefOpenHead: string := RefOpen1 + RefOpen2 + RefOpen3
  const RefOpenTail: string := RefOpen4 + RefOpen5 + RefOpen6 + RefOpen7
  const RefOpen: string := RefOpenHead + RefOpenTail

  const UnlinkedOpen1: string := "<span class=\"text-rose-600 "
  const UnlinkedOpen2: string := "font-bold italic\">"
  const UnlinkedOpen: string := UnlinkedOpen1 + UnlinkedOpen2

  const UnlinkedText: string := "[未連結文件]"

  /** What a `[[REF:id]]` token of an unknown id becomes. */
  function Unlinked(): string {
    UnlinkedOpen + UnlinkedText + SpanClose
  }

  const RefStart: string := "[[REF:"

  // ---------------------------------------------------------------- facts about the fragments

  /** Neither `{` nor `[` occurs in `s`. */
  predicate NoBrackets(s: string) {
    '{' !in s && '[' !in s
  }

  lemma VarOpen1Plain()
    ensures NoBrackets(VarOpen1)
  {
  }

  lemma VarOpen2Plain()
    ensures NoBrackets(VarOpen2)
  {
  }

  lemma VarOpen3Plain()
    ensures NoBrackets(VarOpen3)
  {
  }

  lemma VarOpen4Plain()
    ensures NoBrackets(VarOpen4)
  {
  }

  lemma VarOpenChars()
    ensures NoBrackets(VarOpen) && VarOpen[0] == '<'
  {
    VarOpen1Plain();
    VarOpen2Plain();
    VarOpen3Plain();
    VarOpen4Plain();
  }

  lemma RefOpen1Plain()
    ensures NoBrackets(RefOpen1)
  {
  }

  lemma RefOpen2Plain()
    ensures NoBrackets(RefOpen2)
  {
  }

  lemma RefOpen3Plain()
    ensures NoBrackets(RefOpen3)
  {
  }

  lemma RefOpen4Plain()
    ensures NoBrackets(RefOpen4)
  {
  }

  lemma RefOpen5Plain()
    ensures NoBrackets(RefOpen5)
  {
  }

  lemma RefOpen6Plain()
    ensures NoBrackets(RefOpen6)
  {
  }

  lemma RefOpen7Plain()
    ensures NoBrackets(RefOpen7)
  {
  }

  lemma RefOpenChars()
    ensures NoBrackets(RefOpen) && RefOpen[0] == '<'
  {
    RefOpen1Plain();
    RefOpen2Plain();
    RefOpen3Plain();
    RefOpen4Plain();
    RefOpen5Plain();
    RefOpen6Plain();
    RefOpen7Plain();
  }

  lemma UnlinkedOpen1Plain()
    ensures NoBrackets(UnlinkedOpen1)
  {
  }

  lemma UnlinkedOpen2Plain()
    ensures NoBrackets(UnlinkedOpen2)
  {
  }

  lemma SpanCloseChars()
    ensures NoBrackets(SpanClose)
  {
  }

  lemma UnlinkedChars()
    ensures '{' !in Unlinked() && Unlinked()[0] == '<'
    ensures NoStartIn(Unlinked(), RefStart)
  {
    UnlinkedOpen1Plain();
    UnlinkedOpen2Plain();
    SpanCloseChars();
    assert '{' !in UnlinkedText;
    assert NoStartIn(UnlinkedText, RefStart);
    NoStartInConcat(UnlinkedOpen, UnlinkedText, RefStart);
    NoStartInConcat(UnlinkedOpen + UnlinkedText, SpanClose, RefStart);
  }

  lemma RefStartUnmarked()
    ensures '<' !in RefStart && |RefStart| == 6
  {
  }
}
