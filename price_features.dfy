/**
 * The used-car price demo (price_prediction.py): the form's inputs become an
 * eight-slot feature vector, with the car's age and drop-first one-hot flags,
 * and the trained model's answer is sorted into the four outcomes the page
 * shows.
 *
 * The showroom price enters already in lakhs: the dollar conversion and the
 * rounding of the answer are floating-point steps kept outside the model
 * (`toDisplay` below stands for them), and so is the model itself (`predict`).
 */
module PriceFeatures {
  import opened Wrappers

  /** The year widget's lower bound. */
  const MinYear := 1990

  datatype FuelType = Petrol | Diesel | CNG
  datatype SellerType = Dealer | Individual
  datatype Transmission = Manual | Automatic

  datatype CarInput = CarInput(
    year: int,
    presentPriceLakhs: real,
    kms: int,
    owner: int,
    fuel: FuelType,
    seller: SellerType,
    transmission: Transmission)

  /** What the widgets let through: a year between 1990 and the current year,
      a non-negative distance and 0, 1 or 3 previous owners. */
  predicate WidgetValid(x: CarInput, currentYear: int)
  {
    && MinYear <= x.year <= currentYear
    && x.kms >= 0
    && x.owner in {0, 1, 3}
  }

  datatype Features = Features(
    presentPriceLakhs: real,
    kms: int,
    owner: int,
    age: int,
    diesel: int,
    petrol: int,
    individual: int,
    manual: int)

  /** `1 if c else 0`. */
  function Flag(c: bool): int
  {
    if c then 1 else 0
  }

  /** Age and one-hot flags. CNG, Dealer and Automatic are the dropped
      levels: each is the one with all of its flags off. */
  function Encode(x: CarInput, currentYear: int): Features
  {
    Features(
      x.presentPriceLakhs,
      x.kms,
      x.owner,
      currentYear - x.year,
      Flag(x.fuel == Diesel),
      Flag(x.fuel == Petrol),
      Flag(x.seller == Individual),
      Flag(x.transmission == Manual))
  }

  // Positions in the model's input row.
  const PriceSlot := 0
  const KmsSlot := 1
  const OwnerSlot := 2
  const AgeSlot := 3
  const DieselSlot := 4
  const PetrolSlot := 5
  const IndividualSlot := 6
  const ManualSlot := 7
  const VectorLength := 8

  /** The numpy row handed to the model. */
  function ToVector(f: Features): (v: seq<real>)
    ensures |v| == VectorLength
  {
    [f.presentPriceLakhs, f.kms as real, f.owner as real, f.age as real,
     f.diesel as real, f.petrol as real, f.individual as real, f.manual as real]
  }

  // ---------------------------------------------------------------------
  // Properties of the encoding

  /** Every flag is 0 or 1; fuel is drop-first: CNG is both fuel flags off,
      and the two fuel flags are never both on. */
  lemma FlagsAreBits(x: CarInput, currentYear: int)
    ensures var f := Encode(x, currentYear);
      && f.diesel in {0, 1} && f.petrol in {0, 1}
      && f.individual in {0, 1} && f.manual in {0, 1}
      && !(f.diesel == 1 && f.petrol == 1)
      && (x.fuel == CNG <==> f.diesel == 0 && f.petrol == 0)
  {
  }

  /** Each flag is on exactly when its level is chosen. */
  lemma FlagsMeanLevels(x: CarInput, currentYear: int)
    ensures var f := Encode(x, currentYear);
      && (f.diesel == 1 <==> x.fuel == Diesel)
      && (f.petrol == 1 <==> x.fuel == Petrol)
      && (f.individual == 1 <==> x.seller == Individual)
      && (f.manual == 1 <==> x.transmission == Manual)
  {
  }

  /** Within the widgets' bounds the age lies between 0 and currentYear - 1990,
      and the distance and owner slots keep their bounds. */
  lemma AgeBounds(x: CarInput, currentYear: int)
    requires WidgetValid(x, currentYear)
    ensures var f := Encode(x, currentYear);
      && 0 <= f.age <= currentYear - MinYear
      && f.kms >= 0 && f.owner in {0, 1, 3}
  {
  }

  /** The row has eight slots in the order price, kms, owner, age, diesel,
      petrol, individual, manual. */
  lemma VectorLayout(x: CarInput, currentYear: int)
    ensures var v := ToVector(Encode(x, currentYear));
      && |v| == 8
      && v[PriceSlot] == x.presentPriceLakhs
      && v[KmsSlot] == x.kms as real
      && v[OwnerSlot] == x.owner as real
      && v[AgeSlot] == (currentYear - x.year) as real
      && (v[DieselSlot] == 1.0 <==> x.fuel == Diesel)
      && (v[PetrolSlot] == 1.0 <==> x.fuel == Petrol)
      && (v[IndividualSlot] == 1.0 <==> x.seller == Individual)
      && (v[ManualSlot] == 1.0 <==> x.transmission == Manual)
  {
  }

  /** The form's defaults with Petrol, Dealer and Manual chosen, in 2024:
      age 5 and flags diesel 0, petrol 1, individual 0, manual 1. */
  lemma DefaultFormRow(priceLakhs: real)
    ensures ToVector(Encode(CarInput(2019, priceLakhs, 30000, 0, Petrol, Dealer, Manual), 2024))
      == [priceLakhs, 30000.0, 0.0, 5.0, 0.0, 1.0, 0.0, 1.0]
  {
  }

  // ---------------------------------------------------------------------
  // Reading a row back

  function WholeNumber(r: real): Option<int>
  {
    if r == r.Floor as real then Some(r.Floor) else None
  }

  function FuelOf(diesel: real, petrol: real): Option<FuelType>
  {
    if diesel == 1.0 && petrol == 0.0 then Some(Diesel)
    else if diesel == 0.0 && petrol == 1.0 then Some(Petrol)
    else if diesel == 0.0 && petrol == 0.0 then Some(CNG)
    else None
  }

  function LevelOf<T>(flag: real, on: T, off: T): Option<T>
  {
    if flag == 1.0 then Some(on) else if flag == 0.0 then Some(off) else None
  }

  /** The input a row encodes, if it is one the encoder can produce. */
  function Decode(v: seq<real>, currentYear: int): (r: Option<CarInput>)
    ensures r.Some? ==> |v| == VectorLength
  {
    if |v| != VectorLength then None
    else
      var kms := WholeNumber(v[KmsSlot]);
      var owner := WholeNumber(v[OwnerSlot]);
      var age := WholeNumber(v[AgeSlot]);
      var fuel := FuelOf(v[DieselSlot], v[PetrolSlot]);
      var seller := LevelOf(v[IndividualSlot], Individual, Dealer);
      var transmission := LevelOf(v[ManualSlot], Manual, Automatic);
      if kms.None? || owner.None? || age.None? || fuel.None? || seller.None? || transmission.None? then None
      else Some(CarInput(currentYear - age.value, v[PriceSlot], kms.value, owner.value,
                         fuel.value, seller.value, transmission.value))
  }

  /** Decoding undoes encoding: no two inputs share a row. */
  lemma DecodeEncode(x: CarInput, currentYear: int)
    ensures Decode(ToVector(Encode(x, currentYear)), currentYear) == Some(x)
  {
    var v := ToVector(Encode(x, currentYear));
    assert WholeNumber(v[KmsSlot]) == Some(x.kms);
    assert WholeNumber(v[OwnerSlot]) == Some(x.owner);
    assert WholeNumber(v[AgeSlot]) == Some(currentYear - x.year);
  }

  lemma EncodeInjective(x: CarInput, y: CarInput, currentYear: int)
    requires ToVector(Encode(x, currentYear)) == ToVector(Encode(y, currentYear))
    ensures x == y
  {
    DecodeEncode(x, currentYear);
    DecodeEncode(y, currentYear);
  }

  // ---------------------------------------------------------------------
  // Serving a prediction

  /** What the model's predict call does with a row: an answer in lakhs, or an
      exception (a feature mismatch, for instance). */
  datatype Prediction = Answer(lakhs: real) | Raised(message: string)

  datatype Outcome =
    | NotTrained                  // no model file: "Model not trained yet!"
    | FeatureMismatch(message: string)   // predict raised
    | NoResaleValue(output: real) // a negative rounded price
    | Estimated(output: real)     // "Estimated Price: $ ..."

  /** The branch the page takes after "Predict Price"; `toDisplay` is the
      conversion to dollars and the rounding to cents. */
  function Serve(model: Option<seq<real> -> Prediction>, row: seq<real>, toDisplay: real -> real): (r: Outcome)
    ensures r.NotTrained? <==> model.None?
    ensures r.FeatureMismatch? <==> model.Some? && model.value(row).Raised?
    ensures r.FeatureMismatch? ==> r.message == model.value(row).message
    ensures (r.NoResaleValue? || r.Estimated?) ==>
              model.Some? && model.value(row).Answer? && r.output == toDisplay(model.value(row).lakhs)
    ensures r.NoResaleValue? ==> r.output < 0.0
    ensures r.Estimated? ==> r.output >= 0.0
  {
    match model
    case None => NotTrained
    case Some(predict) =>
      match predict(row)
      case Raised(message) => FeatureMismatch(message)
      case Answer(lakhs) =>
        var output := toDisplay(lakhs);
        if output < 0.0 then NoResaleValue(output) else Estimated(output)
  }

  /** The whole button handler: encode the form, then serve. */
  function PredictPrice(model: Option<seq<real> -> Prediction>, x: CarInput, currentYear: int, toDisplay: real -> real): Outcome
  {
    Serve(model, ToVector(Encode(x, currentYear)), toDisplay)
  }

  /** A model that answers is always reached with the eight-slot row of the
      form, and the sign of the displayed price alone picks the outcome. */
  lemma PredictPriceOutcome(model: Option<seq<real> -> Prediction>, x: CarInput, currentYear: int, toDisplay: real -> real)
    requires model.Some? && model.value(ToVector(Encode(x, currentYear))).Answer?
    ensures var out := toDisplay(model.value(ToVector(Encode(x, currentYear))).lakhs);
      PredictPrice(model, x, currentYear, toDisplay) == (if out < 0.0 then NoResaleValue(out) else Estimated(out))
  {
  }
}
