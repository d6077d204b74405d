/**
 * The checks and texts that depend on the chosen finish (surface): the step
 * gate of the wizard, the surface line of the order e-mail, the colour
 * swatch lookup and the contact gate in front of the e-mail.
 */
module Surface {
  import opened Wrappers
  import opened Types
  import opened Constants

  /** JavaScript truthiness of an optional string: set and not the empty string. */
  predicate Present(s: Option<string>) {
    s.Some? && s.value != ""
  }

  /** The optional order attributes a finish may depend on. */
  datatype Attribute = MarzipanColor | CreamColor | DripType | ShavingsType | EdiblePrintImage

  /**
   * The attributes each finish needs, as the order record documents them:
   * the cream colour serves both cream finishes, the drip style only the
   * drip finish, and "Jiné" needs nothing.
   */
  function RequiredAttributes(surface: SurfaceType): set<Attribute> {
    match surface
    case Marzipan => {MarzipanColor}
    case Cream => {CreamColor}
    case CreamDrip => {CreamColor, DripType}
    case ChocoShavings => {ShavingsType}
    case EdiblePrint => {EdiblePrintImage}
    case Other => {}
  }

  /** The order has attribute `a` filled in. */
  predicate Has(o: CakeOrder, a: Attribute) {
    match a
    case MarzipanColor => Present(o.marzipanColor)
    case CreamColor => Present(o.creamColor)
    case DripType => Present(o.dripType)
    case ShavingsType => Present(o.shavingsType)
    case EdiblePrintImage => o.ediblePrintImage.Some?
  }

  predicate SurfaceComplete(o: CakeOrder) {
    forall a :: a in RequiredAttributes(o.surface) ==> Has(o, a)
  }

  /** The outcome of `validateStep`: pass, or the alert text that blocks the step. */
  datatype StepCheck = Pass | Block(msg: string)

  const MissingDateMessage: string := "Vyberte prosím datum vyzvednutí."

  /** The alert for a finish whose attributes are incomplete ("Jiné" never gets one). */
  function MissingSurfaceMessage(surface: SurfaceType): string {
    match surface
    case Marzipan => "Vyberte prosím barvu marcipánu."
    case Cream => "Vyberte prosím barvu krému."
    case CreamDrip => "Vyberte prosím barvu krému a druh stékání."
    case ChocoShavings => "Vyberte prosím barvu hoblin."
    case EdiblePrint => "Pro pokračování musíte nahrát obrázek pro tisk."
    case Other => ""
  }

  /**
   * `validateStep(stepNum)`. Step 2 is blocked exactly when the finish is
   * missing one of its attributes (one combined alert for the drip finish),
   * step 4 exactly when no pickup date is chosen; every other step passes.
   */
  function ValidateStep(o: CakeOrder, stepNum: int): (r: StepCheck)
    ensures r.Pass? <==> (stepNum == 2 ==> SurfaceComplete(o)) && (stepNum == 4 ==> o.pickupDate.Some?)
    ensures r.Block? && stepNum == 2 ==> r.msg == MissingSurfaceMessage(o.surface) && o.surface != Other
    ensures r.Block? && stepNum == 4 ==> r.msg == MissingDateMessage
    ensures r.Block? ==> r.msg != ""
  {
    if stepNum == 2 && o.surface == Marzipan && !Present(o.marzipanColor) then
      assert !Has(o, MarzipanColor);
      Block(MissingSurfaceMessage(Marzipan))
    else if stepNum == 2 && o.surface == Cream && !Present(o.creamColor) then
      assert !Has(o, CreamColor);
      Block(MissingSurfaceMessage(Cream))
    else if stepNum == 2 && o.surface == CreamDrip && (!Present(o.creamColor) || !Present(o.dripType)) then
      assert !Has(o, CreamColor) || !Has(o, DripType);
      Block(MissingSurfaceMessage(CreamDrip))
    else if stepNum == 2 && o.surface == ChocoShavings && !Present(o.shavingsType) then
      assert !Has(o, ShavingsType);
      Block(MissingSurfaceMessage(ChocoShavings))
    else if stepNum == 2 && o.surface == EdiblePrint && o.ediblePrintImage.None? then
      assert !Has(o, EdiblePrintImage);
      Block(MissingSurfaceMessage(EdiblePrint))
    else if stepNum == 4 && o.pickupDate.None? then
      Block(MissingDateMessage)
    else
      Pass
  }

  /** The finish "Jiné" passes step 2 whatever its note says, even when there is none. */
  lemma OtherAlwaysPasses(o: CakeOrder)
    requires o.surface == Other
    ensures ValidateStep(o, 2) == Pass
  {
  }

  /** The block alerts of different finishes differ, so an alert tells which finish is incomplete. */
  lemma MissingMessagesDistinct(a: SurfaceType, b: SurfaceType)
    requires a != Other && b != Other && MissingSurfaceMessage(a) == MissingSurfaceMessage(b)
    ensures a == b
  {
  }

  /** `value || 'Neuvedeno'`: the value when it is truthy, else the placeholder. */
  function OrUnspecified(s: Option<string>): string
  {
    if Present(s) then s.value else "Neuvedeno"
  }

  /** A template literal interpolating an optional string: a missing one prints "undefined". */
  function Interpolated(s: Option<string>): string
  {
    if s.Some? then s.value else "undefined"
  }

  /** The text inside the parentheses that follow the finish's label. */
  function DetailNote(o: CakeOrder): string {
    match o.surface
    case Marzipan => "Barva: " + OrUnspecified(o.marzipanColor)
    case Cream => "Barva: " + OrUnspecified(o.creamColor)
    case CreamDrip => "Krém: " + OrUnspecified(o.creamColor) + ", Stékání: " + OrUnspecified(o.dripType)
    case ChocoShavings => "Typ: " + OrUnspecified(o.shavingsType)
    case EdiblePrint => "POZOR: Obrázek pro tisk zákazník zašle v odpovědi na tento email"
    case Other => "Pozn: " + Interpolated(o.surfaceOtherNote)
  }

  /**
   * `surfaceDetails`: the finish's label followed by exactly one
   * finish-specific parenthesised note.
   */
  function SurfaceDetails(o: CakeOrder): (r: string)
    ensures |r| > |o.surface.Label()| + 2
    ensures r[..|o.surface.Label()|] == o.surface.Label()
    ensures r[|o.surface.Label()|] == ' ' && r[|o.surface.Label()| + 1] == '(' && r[|r| - 1] == ')'
  {
    o.surface.Label() + " (" + DetailNote(o) + ")"
  }

  /** Characters 0, 1 and 8 of the surface line of each finish. */
  function Signature(surface: SurfaceType): (char, char, char) {
    match surface
    case Cream => ('K', 'r', '(')
    case CreamDrip => ('K', 'r', 'a')
    case Marzipan => ('M', 'a', 'o')
    case ChocoShavings => ('Č', 'o', 'l')
    case EdiblePrint => ('J', 'e', 's')
    case Other => ('J', 'i', 'z')
  }

  lemma DetailsSignature(o: CakeOrder)
    ensures |SurfaceDetails(o)| > 8
    ensures SurfaceDetails(o)[0] == Signature(o.surface).0
    ensures SurfaceDetails(o)[1] == Signature(o.surface).1
    ensures SurfaceDetails(o)[8] == Signature(o.surface).2
  {
    var r, lbl := SurfaceDetails(o), o.surface.Label();
    assert r[0] == lbl[0] && r[1] == lbl[1] by {
      assert r[..|lbl|][0] == r[0] && r[..|lbl|][1] == r[1];
    }
    match o.surface
    case Cream =>
      assert |lbl| == 7 && r[8] == '(';
    case Other =>
      var note := DetailNote(o);
      assert note == "Pozn: " + Interpolated(o.surfaceOtherNote);
      assert note[2] == 'z';
      assert |lbl| == 4 && r == (lbl + " (") + note + ")";
      assert r[8] == note[2];
    case _ =>
      assert r[..|lbl|][8] == r[8];
  }

  /** The surface line names the finish unambiguously: equal lines come from the same finish. */
  lemma DetailsDetermineSurface(a: CakeOrder, b: CakeOrder)
    requires SurfaceDetails(a) == SurfaceDetails(b)
    ensures a.surface == b.surface
  {
    DetailsSignature(a);
    DetailsSignature(b);
  }

  /**
   * Once step 2 has passed, the surface line quotes the order's own colour,
   * drip and shavings values and never falls back to "Neuvedeno".
   */
  lemma ValidatedDetailsQuoteValues(o: CakeOrder)
    requires ValidateStep(o, 2).Pass?
    ensures o.surface == Marzipan ==> DetailNote(o) == "Barva: " + o.marzipanColor.value
    ensures o.surface == Cream ==> DetailNote(o) == "Barva: " + o.creamColor.value
    ensures o.surface == CreamDrip ==> DetailNote(o) == "Krém: " + o.creamColor.value + ", Stékání: " + o.dripType.value
    ensures o.surface == ChocoShavings ==> DetailNote(o) == "Typ: " + o.shavingsType.value
  {
    assert SurfaceComplete(o);
    if o.surface == CreamDrip {
      assert Has(o, CreamColor) && Has(o, DripType);
    } else if o.surface != Other {
      var a :| a in RequiredAttributes(o.surface);
      assert Has(o, a);
    }
  }

  /**
   * Missing values print as "Neuvedeno"; the note of the finish "Jiné" is
   * printed as it is, "undefined" when missing.
   */
  lemma UnfilledDetails(o: CakeOrder)
    ensures o.surface == Marzipan && !Present(o.marzipanColor) ==> DetailNote(o) == "Barva: Neuvedeno"
    ensures o.surface == Cream && !Present(o.creamColor) ==> DetailNote(o) == "Barva: Neuvedeno"
    ensures o.surface == ChocoShavings && !Present(o.shavingsType) ==> DetailNote(o) == "Typ: Neuvedeno"
    ensures o.surface == Other && o.surfaceOtherNote.None? ==> DetailNote(o) == "Pozn: undefined"
    ensures o.surface == Other && o.surfaceOtherNote.Some? ==> DetailNote(o) == "Pozn: " + o.surfaceOtherNote.value
  {
  }

  /** The drip finish prints "Neuvedeno" for its cream colour and for its drip style, each on its own. */
  lemma UnfilledDripDetails(o: CakeOrder)
    requires o.surface == CreamDrip
    ensures !Present(o.creamColor) && !Present(o.dripType) ==>
      DetailNote(o) == "Krém: Neuvedeno, Stékání: Neuvedeno"
    ensures !Present(o.creamColor) && Present(o.dripType) ==>
      DetailNote(o) == "Krém: Neuvedeno, Stékání: " + o.dripType.value
    ensures Present(o.creamColor) && !Present(o.dripType) ==>
      DetailNote(o) == "Krém: " + o.creamColor.value + ", Stékání: Neuvedeno"
  {
    var c, t := OrUnspecified(o.creamColor), OrUnspecified(o.dripType);
    assert DetailNote(o) == "Krém: " + c + ", Stékání: " + t;
    assert ", Stékání: " + "Neuvedeno" == ", Stékání: Neuvedeno";
    assert "Krém: " + "Neuvedeno" == "Krém: Neuvedeno";
  }

  /** `CAKE_COLORS.find(c => c.name === name)`: the first colour with that name. */
  function FindColor(colors: seq<CakeColor>, name: string): (r: Option<CakeColor>)
    ensures r.None? <==> forall i :: 0 <= i < |colors| ==> colors[i].name != name
    ensures r.Some? ==> r.value in colors && r.value.name == name
  {
    if colors == [] then None
    else if colors[0].name == name then Some(colors[0])
    else FindColor(colors[1..], name)
  }

  /** `getColorHex(name)`: the palette hex of the named colour, "transparent" when unset, empty or unknown. */
  function GetColorHex(name: Option<string>): (r: string)
    ensures !Present(name) ==> r == "transparent"
    ensures Present(name) && (forall i :: 0 <= i < |CakeColors| ==> CakeColors[i].name != name.value) ==> r == "transparent"
  {
    if !Present(name) then "transparent"
    else
      var c := FindColor(CakeColors, name.value);
      if c.Some? then c.value.hex else "transparent"
  }

  /** Every palette colour's name leads back to that colour's own hex code. */
  lemma ColorHexOfPalette(i: int)
    requires 0 <= i < |CakeColors|
    ensures GetColorHex(Some(CakeColors[i].name)) == CakeColors[i].hex
    ensures CakeColors[i].hex != "transparent"
  {
    ColorNamesDistinct();
    ColorEntriesNonEmpty();
    FindDistinct(CakeColors, i);
  }

  /** With distinct names, looking up the name of entry `i` finds entry `i`. */
  lemma {:induction false} FindDistinct(colors: seq<CakeColor>, i: int)
    requires 0 <= i < |colors|
    requires forall j, k :: 0 <= j < k < |colors| ==> colors[j].name != colors[k].name
    ensures FindColor(colors, colors[i].name) == Some(colors[i])
  {
    if i > 0 {
      assert colors[0].name != colors[i].name;
      FindDistinct(colors[1..], i - 1);
    }
  }

  const ContactAlert: string :=
    "Vyplňte prosím všechny kontaktní údaje (Jméno, Telefon, Email), abychom vás mohli kontaktovat."

  /** What `handleSubmitOrder` does: alert and stop, or compose the e-mail (subject and surface line). */
  datatype Submission = Rejected(alert: string) | Mail(subject: string, surfaceLine: string)

  /** The contact fields are all filled in. */
  predicate ContactComplete(o: CakeOrder) {
    o.customerEmail != "" && o.customerName != "" && o.customerPhone != ""
  }

  /**
   * `handleSubmitOrder`: without a name, a phone and an e-mail address it
   * only raises the contact alert; otherwise it composes the e-mail whose
   * subject names the customer and whose surface line is `SurfaceDetails`.
   */
  function SubmitOrder(o: CakeOrder): (r: Submission)
    ensures r.Mail? <==> ContactComplete(o)
    ensures r.Rejected? ==> r.alert == ContactAlert
    ensures r.Mail? ==> r.subject == "Poptávka dortu - " + o.customerName && r.surfaceLine == SurfaceDetails(o)
  {
    if o.customerEmail == "" || o.customerName == "" || o.customerPhone == "" then Rejected(ContactAlert)
    else Mail("Poptávka dortu - " + o.customerName, SurfaceDetails(o))
  }
}
