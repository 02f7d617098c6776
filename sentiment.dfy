/**
 * The sentiment adapter (app/gemini_client.py): the post-processing of the
 * generative model's reply into one of three labels. The remote call itself
 * is not modelled; its reply (`resp.text`, absent or None as `None`) is the
 * input.
 */
module Sentiment {
  import opened Wrappers
  import opened Text

  /** The closed label set. */
  datatype Label = Positivo | Negativo | Neutro

  /** The string stored in the `sentimiento` column for a label. */
  function LabelText(l: Label): string {
    match l
    case Positivo => "positivo"
    case Negativo => "negativo"
    case Neutro => "neutro"
  }

  /** The label a stored string stands for, if it is one of the three. */
  function LabelOf(s: string): (r: Option<Label>)
    ensures r.Some? <==> s in {"positivo", "negativo", "neutro"}
    ensures r.Some? ==> LabelText(r.value) == s
  {
    if s == "positivo" then Some(Positivo)
    else if s == "negativo" then Some(Negativo)
    else if s == "neutro" then Some(Neutro)
    else None
  }

  lemma LabelRoundTrip(l: Label)
    ensures LabelOf(LabelText(l)) == Some(l)
  {
  }

  /**
   * The chain of `in` tests on the normalised reply: the first match wins, and
   * the test for "neutro" decides nothing, since both of its outcomes are neutral.
   */
  function Pick(raw: string): (l: Label)
    ensures l == Positivo <==> Contains(raw, "positivo")
    ensures l == Negativo <==> !Contains(raw, "positivo") && Contains(raw, "negativo")
    ensures l == Neutro <==> !Contains(raw, "positivo") && !Contains(raw, "negativo")
  {
    if Contains(raw, "positivo") then Positivo
    else if Contains(raw, "negativo") then Negativo
    else if Contains(raw, "neutro") then Neutro
    else Neutro
  }

  /**
   * `analizar_sentimiento` once the reply is known: strip, lower-case, pick.
   * A missing reply counts as empty, and stripping never changes the label.
   */
  function Classify(reply: Option<string>): (l: Label)
    ensures l == Pick(Lower(reply.GetOr("")))
  {
    var s := reply.GetOr("");
    LowerStrip(s);
    ContainsStrip(Lower(s), "positivo");
    ContainsStrip(Lower(s), "negativo");
    Pick(Lower(Strip(s)))
  }

  /** A reply mentioning "positivo" in any case is positive, whatever else it says. */
  lemma {:induction false} PositiveWins(s: string)
    requires Contains(Lower(s), "positivo")
    ensures Classify(Some(s)) == Positivo
  {
  }

  /** A reply mentioning "negativo" but not "positivo" is negative. */
  lemma {:induction false} NegativeNext(s: string)
    requires !Contains(Lower(s), "positivo") && Contains(Lower(s), "negativo")
    ensures Classify(Some(s)) == Negativo
  {
  }

  /** Everything else, including a reply naming none of the labels, is neutral. */
  lemma {:induction false} NeutralOtherwise(s: string)
    requires !Contains(Lower(s), "positivo") && !Contains(Lower(s), "negativo")
    ensures Classify(Some(s)) == Neutro
  {
  }

  /** A missing or empty reply is neutral. */
  lemma NoReplyIsNeutral()
    ensures Classify(None) == Neutro
    ensures Classify(Some("")) == Neutro
  {
  }

  /** Two replies that agree up to upper/lower case get the same label. */
  lemma {:induction false} ClassifyIgnoresCase(s: string, t: string)
    requires Lower(s) == Lower(t)
    ensures Classify(Some(s)) == Classify(Some(t))
  {
  }

  /** Whitespace around the reply does not change its label. */
  lemma {:induction false} ClassifyIgnoresPadding(p: string, s: string, q: string)
    requires AllSpace(p) && AllSpace(q)
    ensures Classify(Some(p + s + q)) == Classify(Some(s))
  {
    StripIgnoresPadding(p, s, q);
  }

  /** A reply that is exactly one label word, in any case, yields that label. */
  lemma {:induction false} ExactLabel(s: string, l: Label)
    requires Lower(s) == LabelText(l)
    ensures Classify(Some(s)) == l
  {
    var w := LabelText(l);
    if l != Positivo {
      forall i | 0 <= i <= |w| - 8 ensures !OccursAt(w, "positivo", i) {
        assert w[i..i + 8][0] == w[0] != 'p';
      }
    }
    if l == Neutro {
      assert |w| < 8;
    }
    assert OccursAt(w, w, 0);
  }
}
