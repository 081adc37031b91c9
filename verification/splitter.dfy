/** utils/splitter.js: `dividirResposta` packs the "\n"-separated paragraphs of a long message into
    parts of bounded length, greedily, never cutting a paragraph. */
module Splitter {
  import opened JsStrings

  /** The default part length. */
  const DefaultLimit: nat := 1500

  /** The loop state after some paragraphs: the untrimmed texts of the parts already closed, and the
      text `atual` still being accumulated. */
  datatype Packing = Packing(closed: seq<string>, atual: string)

  /** One turn of the loop: a paragraph that would take `atual` over the limit closes it and starts
      the next part; otherwise it is appended after a "\n". */
  function Step(pk: Packing, p: string, limite: nat): Packing {
    if |pk.atual + "\n" + p| > limite then Packing(pk.closed + [pk.atual], p)
    else Packing(pk.closed, pk.atual + "\n" + p)
  }

  /** The loop over the paragraphs, from no part and `atual == ""`. */
  function Pack(paras: seq<string>, limite: nat): Packing {
    if paras == [] then Packing([], "")
    else Step(Pack(paras[..|paras| - 1], limite), paras[|paras| - 1], limite)
  }

  /** The untrimmed texts of the parts of a long text: the closed ones, then `atual` unless empty. */
  function Pieces(texto: string, limite: nat): seq<string> {
    var pk := Pack(Split(texto, "\n"), limite);
    if pk.atual != "" then pk.closed + [pk.atual] else pk.closed
  }

  /** What `dividirResposta` returns. */
  function Parts(texto: string, limite: nat): seq<string> {
    if |texto| <= limite then [texto] else TrimAll(Pieces(texto, limite))
  }

  lemma PackSnoc(paras: seq<string>, k: nat, limite: nat)
    requires k < |paras|
    ensures Pack(paras[..k + 1], limite) == Step(Pack(paras[..k], limite), paras[k], limite)
  {
    assert paras[..k + 1][..k] == paras[..k];
  }

  lemma TrimAllSnoc(rs: seq<string>, x: string)
    ensures TrimAll(rs + [x]) == TrimAll(rs) + [Trim(x)]
  {
  }

  /** `dividirResposta` */
  method SplitMessage(texto: string, limite: nat := DefaultLimit) returns (partes: seq<string>)
    ensures partes == Parts(texto, limite)
  {
    if |texto| <= limite {
      return [texto];
    }
    var paras := Split(texto, "\n");
    ghost var closed: seq<string> := [];
    partes := [];
    var atual := "";
    for k := 0 to |paras|
      invariant Pack(paras[..k], limite) == Packing(closed, atual)
      invariant partes == TrimAll(closed)
    {
      var p := paras[k];
      PackSnoc(paras, k, limite);
      if |atual + "\n" + p| > limite {
        TrimAllSnoc(closed, atual);
        partes := partes + [Trim(atual)];
        closed := closed + [atual];
        atual := p;
      } else {
        atual := atual + "\n" + p;
      }
    }
    assert paras[..|paras|] == paras;
    if atual != "" {
      TrimAllSnoc(closed, atual);
      partes := partes + [Trim(atual)];
      closed := closed + [atual];
    }
  }

  /** A part longer than the limit is a single paragraph that is itself longer than the limit. */
  ghost predicate WithinLimitOrParagraph(s: string, paras: seq<string>, limite: nat) {
    |s| <= limite || exists j :: 0 <= j < |paras| && s == paras[j] && |paras[j]| > limite
  }

  /** Nothing of the paragraphs is lost: the closed pieces and `atual`, joined with "\n", give back
      the paragraphs joined with "\n" after the "\n" the first part starts with. */
  lemma {:induction false} PackJoin(paras: seq<string>, limite: nat)
    requires paras != []
    ensures Join(Pack(paras, limite).closed + [Pack(paras, limite).atual], "\n") == "\n" + Join(paras, "\n")
  {
    var init, p := paras[..|paras| - 1], paras[|paras| - 1];
    assert paras == init + [p];
    if init == [] {
      assert Join(paras, "\n") == p;
    } else {
      PackJoin(init, limite);
      var pk := Pack(init, limite);
      JoinSnoc(init, p, "\n");
      if |pk.atual + "\n" + p| > limite {
        JoinSnoc(pk.closed + [pk.atual], p, "\n");
      } else if pk.closed == [] {
        assert Join([pk.atual + "\n" + p], "\n") == Join([pk.atual], "\n") + "\n" + p;
      } else {
        JoinSnoc(pk.closed, pk.atual, "\n");
        JoinSnoc(pk.closed, pk.atual + "\n" + p, "\n");
        var j := Join(pk.closed, "\n");
        assert j + "\n" + (pk.atual + "\n" + p) == (j + "\n" + pk.atual) + "\n" + p;
      }
    }
  }

  /** Every closed piece is within the limit or a single paragraph, and so is `atual` (which, when
      over the limit, is the last paragraph); `atual` is empty only after a part was closed. */
  lemma {:induction false} PackBound(paras: seq<string>, limite: nat)
    requires paras != []
    ensures var pk := Pack(paras, limite);
      && (forall i :: 0 <= i < |pk.closed| ==> WithinLimitOrParagraph(pk.closed[i], paras, limite))
      && (|pk.atual| <= limite || pk.atual == paras[|paras| - 1])
      && (pk.atual == "" ==> pk.closed != [])
  {
    var init, p := paras[..|paras| - 1], paras[|paras| - 1];
    assert paras == init + [p];
    if init != [] {
      PackBound(init, limite);
      var pk := Pack(init, limite);
      forall i | 0 <= i < |pk.closed| ensures WithinLimitOrParagraph(pk.closed[i], paras, limite) {
        assert WithinLimitOrParagraph(pk.closed[i], init, limite);
        var j :| 0 <= j < |init| && (|pk.closed[i]| <= limite || (pk.closed[i] == init[j] && |init[j]| > limite));
        assert paras[j] == init[j];
      }
      if |pk.atual + "\n" + p| > limite && |pk.atual| > limite {
        assert pk.atual == paras[|init| - 1];
      }
    }
  }

  /** A first paragraph of `limite` characters or more does not fit after the initial "\n": it closes
      an empty first piece, which later paragraphs never change. */
  lemma {:induction false} PackFirst(paras: seq<string>, limite: nat)
    requires paras != [] && |paras[0]| >= limite
    ensures Pack(paras, limite).closed != [] && Pack(paras, limite).closed[0] == ""
  {
    var init := paras[..|paras| - 1];
    if init != [] {
      assert init[0] == paras[0];
      PackFirst(init, limite);
    }
  }

  /** `dividirResposta` on a text over the limit: at least one part, each part trimmed and either
      within the limit or one paragraph that is itself over it, and the parts are the trimmed pieces
      of the text cut at line breaks: joined with "\n" the pieces give back "\n" followed by the text
      (or all of it but the final "\n", when the last paragraph is empty and starts no part). */
  lemma LongTextParts(texto: string, limite: nat)
    requires |texto| > limite
    ensures var partes, pieces, paras := Parts(texto, limite), Pieces(texto, limite), Split(texto, "\n");
      && |partes| == |pieces| >= 1
      && (forall i :: 0 <= i < |partes| ==> IsTrimmed(partes[i]) && partes[i] == Trim(pieces[i]))
      && (forall i :: 0 <= i < |pieces| ==> WithinLimitOrParagraph(pieces[i], paras, limite))
      && (Join(pieces, "\n") == "\n" + texto || Join(pieces, "\n") + "\n" == "\n" + texto)
  {
    PiecesWithinLimit(texto, limite);
    PiecesJoin(texto, limite);
  }

  lemma PiecesWithinLimit(texto: string, limite: nat)
    ensures var pieces, paras := Pieces(texto, limite), Split(texto, "\n");
      && |pieces| >= 1
      && forall i :: 0 <= i < |pieces| ==> WithinLimitOrParagraph(pieces[i], paras, limite)
  {
    var paras := Split(texto, "\n");
    var pk := Pack(paras, limite);
    PackBound(paras, limite);
    if pk.atual != "" {
      assert WithinLimitOrParagraph(pk.atual, paras, limite) by {
        if |pk.atual| > limite {
          assert pk.atual == paras[|paras| - 1];
        }
      }
    }
  }

  lemma PiecesJoin(texto: string, limite: nat)
    ensures var pieces := Pieces(texto, limite);
      Join(pieces, "\n") == "\n" + texto || Join(pieces, "\n") + "\n" == "\n" + texto
  {
    var paras := Split(texto, "\n");
    var pk := Pack(paras, limite);
    PackJoin(paras, limite);
    JoinSplit(texto, "\n");
    if pk.atual == "" {
      PackBound(paras, limite);
      JoinSnoc(pk.closed, "", "\n");
    }
  }

  /** A first paragraph of `limite` characters or more does not fit after the initial "\n", so the
      first part is the empty string. */
  lemma FirstParagraphTooLong(texto: string, limite: nat)
    requires |texto| > limite && |Split(texto, "\n")[0]| >= limite
    ensures Parts(texto, limite)[0] == ""
  {
    PackFirst(Split(texto, "\n"), limite);
  }
}
