/**
  Two concrete narrations run through the extraction rules. They pin down how
  the corporate-ending rule behaves on real text: an ending matches anywhere,
  also inside a word, and the first ending in the fixed list that occurs wins,
  not the one that occurs last in the text or last in the list.
*/
module Scenarios {
  import opened Strings
  import opened Memo
  import opened Transaction

  lemma Lowered()
    ensures ToLower("e. V.") == "e. v." && ToLower("KG") == "kg" && ToLower("GmbH") == "gmbh" && ToLower("AG") == "ag"
    ensures ToLower("Tage") == "tage" && ToLower("X GmbH AG") == "x gmbh ag"
  {
  }

  /** The corporate-ending rule on an already clean narration with an empty registry. */
  lemma CorporateOnEmptyRegistry(text: string, k: nat, cut: nat)
    requires TrimMemo(text) == text
    requires k < |CorporateEndings| && ContainsFold(text, CorporateEndings[k])
    requires NoEndingOccurs(text, CorporateEndings[..k])
    requires EndingCut(text, CorporateEndings[k]) == cut
    ensures Extract(text, Transfer, []) == Extraction(text[..cut], TrimSpace(text[cut..]), false)
  {
    CorporateResult(text, Transfer, [], k);
  }

  lemma TageClean()
    ensures TrimMemo("Tage") == "Tage"
  {
    TrimMemoFixpoint("Tage");
  }

  lemma GmbHAgClean()
    ensures TrimMemo("X GmbH AG") == "X GmbH AG"
  {
    TrimMemoFixpoint("X GmbH AG");
  }

  /** In "Tage" none of the first three endings occurs, and "AG" does. */
  lemma TageEndings()
    ensures NoEndingOccurs("Tage", CorporateEndings[..3])
    ensures CorporateEndings[3] == "AG" && ContainsFold("Tage", "AG")
  {
    Lowered();
    assert !Contains("tage", "kg") by {
      forall i | 0 <= i <= 2 ensures !OccursAt("tage", "kg", i) {
        assert "tage"[i..i + 2][0] != 'k';
      }
    }
    assert !Contains("tage", "gmbh") by {
      assert "tage"[0..4][0] != 'g';
    }
    assert OccursAt("tage", "ag", 1);
  }

  /** "AG" occurs in "Tage" once, ending at index 3. */
  lemma TageCut()
    ensures ContainsFold("Tage", "AG") && EndingCut("Tage", "AG") == 3
  {
    Lowered();
    assert OccursAt("tage", "ag", 1);
    assert !OccursAt("tage", "ag", 2) by { assert "tage"[2..4][0] != 'a'; }
  }

  /** "AG" fires inside the word "Tage": the narration is split into payee "Tag" and memo "e". */
  lemma EndingInsideWord()
    ensures Extract("Tage", Transfer, []) == Extraction("Tag", "e", false)
  {
    TageClean();
    TageEndings();
    TageCut();
    CorporateOnEmptyRegistry("Tage", 3, 3);
    TagePieces();
  }

  lemma TagePieces()
    ensures "Tage"[..3] == "Tag" && TrimSpace("Tage"[3..]) == "e"
  {
    assert "Tage"[3..] == "e";
    TrimSpaceFixpoint("e");
  }

  /** In "X GmbH AG" the first listed ending that occurs is "GmbH". */
  lemma GmbHAgEndings()
    ensures NoEndingOccurs("X GmbH AG", CorporateEndings[..2])
    ensures CorporateEndings[2] == "GmbH" && ContainsFold("X GmbH AG", "GmbH")
  {
    Lowered();
    var l := "x gmbh ag";
    assert !Contains(l, "kg") by {
      forall i | 0 <= i <= 7 ensures !OccursAt(l, "kg", i) {
        assert l[i..i + 2][0] != 'k';
      }
    }
    assert !Contains(l, "e. v.") by {
      forall i | 0 <= i <= 4 ensures !OccursAt(l, "e. v.", i) {
        assert l[i..i + 5][0] != 'e';
      }
    }
    assert OccursAt(l, "gmbh", 2);
  }

  /** "GmbH" occurs in "X GmbH AG" once, ending at index 6. */
  lemma GmbHAgCut()
    ensures ContainsFold("X GmbH AG", "GmbH") && EndingCut("X GmbH AG", "GmbH") == 6
  {
    Lowered();
    var l := "x gmbh ag";
    assert OccursAt(l, "gmbh", 2);
    forall i | 2 < i ensures !OccursAt(l, "gmbh", i) {
      if i <= 5 {
        assert l[i..i + 4][0] != 'g';
      }
    }
  }

  lemma TrimLeadingBlank()
    ensures TrimSpace(" AG") == "AG"
  {
    assert SkipSpace(" AG", 1) == 1;
    assert SkipSpace(" AG", 0) == 1;
    assert SkipSpaceBack(" AG", 1, 3) == 3;
    assert " AG"[1..3] == "AG";
  }

  /**
    "GmbH" comes before "AG" in the list, so it wins although "AG" occurs
    further right and later in the list: the payee is "X GmbH" and "AG" is left
    as the memo.
  */
  lemma FirstListedEndingWins()
    ensures Extract("X GmbH AG", Transfer, []) == Extraction("X GmbH", "AG", false)
  {
    GmbHAgSplit();
    GmbHAgPieces();
  }

  lemma GmbHAgPieces()
    ensures "X GmbH AG"[..6] == "X GmbH" && TrimSpace("X GmbH AG"[6..]) == "AG"
  {
    assert "X GmbH AG"[6..] == " AG";
    TrimLeadingBlank();
  }

  lemma GmbHAgSplit()
    ensures Extract("X GmbH AG", Transfer, []) == Extraction("X GmbH AG"[..6], TrimSpace("X GmbH AG"[6..]), false)
  {
    GmbHAgClean();
    GmbHAgEndings();
    GmbHAgCut();
    CorporateOnEmptyRegistry("X GmbH AG", 2, 6);
  }
}
