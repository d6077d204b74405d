/** The fixed tables of the order form: pickup locations, colour palette, drip and shavings options, size vocabularies. */
module Constants {
  import opened Wrappers
  import opened Decimal
  import opened SizeTokens
  import opened Types

  const Locations: seq<Location> := [
    Location("petrvald", "Petřvald", "Šenovská 1", "778 157 857", Store),
    Location("karvina", "Karviná", "Tř. Těreškovové 2233/28", "778 157 867", Store),
    Location("ostrava", "Ostrava Zábřeh", "Výškovická 116A", "775 271 101", Store),
    Location("pist", "Píšť (Výrobna)", "Opavská 218/101", "602 323 788", Factory)
  ]

  datatype CakeColor = CakeColor(name: string, hex: string)

  const CakeColors: seq<CakeColor> := [
    CakeColor("Bílá", "#FFFFFF"),
    CakeColor("Šedá", "#9CA3AF"),
    CakeColor("Černá", "#000000"),
    CakeColor("Růžová", "#F472B6"),
    CakeColor("Červená", "#EF4444"),
    CakeColor("Hnědá", "#854d0e"),
    CakeColor("Oranžová", "#F97316"),
    CakeColor("Modrá", "#3B82F6"),
    CakeColor("Fialová", "#A855F7"),
    CakeColor("Zelená", "#22C55E"),
    CakeColor("Žlutá", "#EAB308")
  ]

  const ShavingsOptions: seq<string> := ["Bílá", "Hnědá", "Růžová"]
  const DripOptions: seq<string> := ["Tmavá čokoláda", "Bílá čokoláda"]

  const RoundSizes: seq<SizeToken> := [Cm(26), Cm(24), Cm(22), Cm(18), Cm(16), Cm(14)]
  const SquareSizes: seq<SizeToken> := [Cm(28), Cm(24), Cm(20), Cm(16)]
  const RectangleSizes: seq<SizeToken> := [Dims(60, 40), Dims(40, 30), Jine]
  const HeartSizes: seq<SizeToken> := [Cm(24), Cm(18), Cm(16)]

  function RenderAll(v: seq<SizeToken>): (r: seq<string>)
    ensures |r| == |v| && forall i :: 0 <= i < |v| ==> r[i] == Render(v[i])
  {
    if v == [] then [] else [Render(v[0])] + RenderAll(v[1..])
  }

  /** The round vocabulary renders to exactly the option strings "26" … "14". */
  lemma RoundSizeStrings()
    ensures RenderAll(RoundSizes) == ["26", "24", "22", "18", "16", "14"]
  {
    NatToStringTwoDigit(26); NatToStringTwoDigit(24); NatToStringTwoDigit(22);
    NatToStringTwoDigit(18); NatToStringTwoDigit(16); NatToStringTwoDigit(14);
  }

  lemma SquareSizeStrings()
    ensures RenderAll(SquareSizes) == ["28", "24", "20", "16"]
  {
    NatToStringTwoDigit(28); NatToStringTwoDigit(24); NatToStringTwoDigit(20); NatToStringTwoDigit(16);
  }

  lemma RectangleSizeStrings()
    ensures RenderAll(RectangleSizes) == ["60x40", "40x30", "Jiné"]
  {
    NatToStringTwoDigit(60); NatToStringTwoDigit(40); NatToStringTwoDigit(30);
    assert Render(Dims(60, 40)) == "60x40";
    assert Render(Dims(40, 30)) == "40x30";
  }

  lemma HeartSizeStrings()
    ensures RenderAll(HeartSizes) == ["24", "18", "16"]
  {
    NatToStringTwoDigit(24); NatToStringTwoDigit(18); NatToStringTwoDigit(16);
  }

  /** Every later entry is strictly smaller by `parseInt`, so in particular no entry repeats. */
  predicate StrictlyDescending(v: seq<SizeToken>) {
    forall i, j :: 0 <= i < j < |v| ==> Less(v[j], v[i])
  }

  /** Every entry has a numeric value. */
  predicate AllNumeric(v: seq<SizeToken>) {
    forall i :: 0 <= i < |v| ==> Value(v[i]).Some?
  }

  /** The round, square and heart vocabularies are ordered largest first and have at least three entries. */
  lemma NumericVocabulariesDescend()
    ensures StrictlyDescending(RoundSizes) && |RoundSizes| == 6
    ensures StrictlyDescending(SquareSizes) && |SquareSizes| == 4
    ensures StrictlyDescending(HeartSizes) && |HeartSizes| == 3
  {
    AdjacentDescending(RoundSizes);
    AdjacentDescending(SquareSizes);
    AdjacentDescending(HeartSizes);
  }

  /** A list where each entry is smaller than the one before it is strictly descending throughout. */
  lemma {:induction false} AdjacentDescending(v: seq<SizeToken>)
    requires forall i :: 0 < i < |v| ==> Less(v[i], v[i - 1])
    ensures StrictlyDescending(v)
  {
    if |v| > 1 {
      var p := v[..|v| - 1];
      AdjacentDescending(p);
      forall i, j | 0 <= i < j < |v| ensures Less(v[j], v[i]) {
        if j < |v| - 1 {
          assert Less(p[j], p[i]);
        } else if i < j - 1 {
          assert Less(p[j - 1], p[i]);
        }
      }
    }
  }

  /** The rectangle vocabulary alone holds tokens that are not plain numbers, and only "Jiné" has no value. */
  lemma RectangleVocabularyShape()
    ensures forall t :: t in RoundSizes + SquareSizes + HeartSizes ==> t.Cm?
    ensures exists t :: t in RectangleSizes && !t.Cm?
    ensures forall t :: t in RectangleSizes ==> (Value(t).None? <==> t == Jine)
    ensures Value(RectangleSizes[0]) == Some(60) && Value(RectangleSizes[1]) == Some(40)
  {
    assert RectangleSizes[0] in RectangleSizes && !RectangleSizes[0].Cm?;
  }

  /** Colour names are distinct, so a lookup by name finds at most one hex code. */
  lemma ColorNamesDistinct()
    ensures |CakeColors| == 11
    ensures forall i, j :: 0 <= i < j < |CakeColors| ==> CakeColors[i].name != CakeColors[j].name
  {
  }

  /** Colour names are never empty and no hex code is the word "transparent". */
  lemma ColorEntriesNonEmpty()
    ensures forall i :: 0 <= i < |CakeColors| ==> CakeColors[i].name != "" && CakeColors[i].hex != "transparent"
  {
  }

  lemma OptionCounts()
    ensures |ShavingsOptions| == 3 && |DripOptions| == 2
  {
  }

  /** Four locations with distinct ids; the first is "petrvald"; only the last is the factory. */
  lemma LocationsTable()
    ensures |Locations| == 4 && Locations[0].id == "petrvald"
    ensures forall i, j :: 0 <= i < j < |Locations| ==> Locations[i].id != Locations[j].id
    ensures forall i :: 0 <= i < |Locations| ==> (Locations[i].kind == Factory <==> i == 3)
  {
  }
}
