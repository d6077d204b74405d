/**
 * The order record and its enumerations. String-valued enums become closed
 * datatypes; their Czech labels (the strings the order e-mail prints) are
 * given by the `Label` functions.
 */
module Types {
  import opened Wrappers
  import opened SizeTokens
  import opened Dates

  datatype CakeShape = Round | Rectangle | Square | Heart {
    function Label(): string {
      match this
      case Round => "Kulatý"
      case Rectangle => "Obdélník"
      case Square => "Čtverec"
      case Heart => "Srdíčko"
    }
  }

  datatype FillingType =
    | Raspberry | ChocolateFilling | Cherry | Blueberry | Pistachio
    | WalnutFilling | Apricot | MangoPassion | VanillaFilling

  datatype SpongeType = ChocolateSponge | VanillaSponge | WalnutSponge | Moss | RedVelvet

  datatype SurfaceType = Cream | CreamDrip | Marzipan | ChocoShavings | EdiblePrint | Other {
    function Label(): string {
      match this
      case Cream => "Krémový"
      case CreamDrip => "Krémový a stékaná čokoláda"
      case Marzipan => "Marcipánový"
      case ChocoShavings => "Čoko-hobliny"
      case EdiblePrint => "Jedlý tisk"
      case Other => "Jiné"
    }
  }

  /** Distinct shapes and distinct surfaces print distinct labels. */
  lemma LabelsDistinct(a: CakeShape, b: CakeShape, s: SurfaceType, t: SurfaceType)
    ensures a.Label() == b.Label() ==> a == b
    ensures s.Label() == t.Label() ==> s == t
  {
  }

  datatype LocationKind = Store | Factory

  datatype Location = Location(id: string, name: string, address: string, phone: string, kind: LocationKind)

  /** An uploaded image: its id and preview URL (the browser `File` itself is not modelled). */
  datatype CakeImage = CakeImage(id: string, previewUrl: string)

  /** The tier count is typed `1 | 2 | 3`. */
  type TierCount = n: int | 1 <= n <= 3 witness 1

  /**
   * `CakeOrder`. Optional TypeScript properties and the nullable pickup date
   * are `Option`s; `tierSizes[0]` is the bottom tier.
   */
  datatype CakeOrder = CakeOrder(
    images: seq<CakeImage>,
    tiers: TierCount,
    tierSizes: seq<SizeToken>,
    customSizeNote: Option<string>,
    shape: CakeShape,
    filling: FillingType,
    sponge: SpongeType,
    surface: SurfaceType,
    surfaceOtherNote: Option<string>,
    marzipanColor: Option<string>,
    creamColor: Option<string>,
    dripType: Option<string>,
    shavingsType: Option<string>,
    ediblePrintImage: Option<CakeImage>,
    inscription: string,
    specifications: string,
    quantity: int,
    pickupDate: Option<DateTime>,
    pickupLocationId: string,
    customerName: string,
    customerPhone: string,
    customerEmail: string)

  /** Public holidays as zero-padded "DD-MM" keys. */
  const CzechHolidays: seq<string> :=
    ["01-01", "01-05", "08-05", "05-07", "06-07", "28-09", "28-10", "17-11", "24-12", "25-12", "26-12"]
}
