/**
 Whole runs of appends to one document, mixing the append routines of src/string-util.c.
 */
module Appending {
  import opened Prelude
  import opened Pstrings

  /** One append: `wappend`/`wappendn`, `wappendf`, or `pappend` of a freshly formatted string. */
  datatype Append = Wide(text: string) | Formatted(text: string) | Joined(text: string)

  function Concatenation(ops: seq<Append>): string {
    if ops == [] then "" else ops[0].text + Concatenation(ops[1..])
  }

  /** `pappend` writes after the terminator of what is there, so something must be there. */
  predicate Appendable(before: string, ops: seq<Append>)
    decreases |ops|
  {
    ops == [] ||
    (NoNul(ops[0].text) && (ops[0].Joined? ==> before != "") && Appendable(before + ops[0].text, ops[1..]))
  }

  /**
   Over every such run the document holds the old text followed by the appended texts, its terminator
   right after them and its allocated size in step, whichever length convention each append used.
   */
  method RunAppends(doc: PString, ops: seq<Append>)
    requires doc.Valid() && Appendable(doc.Text(), ops)
    modifies doc
    ensures doc.Valid() && doc.Text() == old(doc.Text()) + Concatenation(ops)
    decreases |ops|
  {
    if ops == [] {
      assert doc.Text() + "" == doc.Text();
      return;
    }
    if ops[0].Joined? {
      var src := new PString.Formatted(ops[0].text);
      doc.Pappend(src);
    } else {
      doc.Wappendn(ops[0].text);
    }
    RunAppends(doc, ops[1..]);
    Regroup(old(doc.Text()), ops[0].text, Concatenation(ops[1..]));
  }
}
