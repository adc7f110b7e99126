/** The fixed quote page of QuoteForm.tsx: a form object whose keys are written one at
    a time by the select, multi-select, carrier and input handlers, a validator that
    fills an error map check by check, and a submit that stores or clears it. */
module QuoteForm {
  import opened Common
  import opened Text

  /** A slot of the form object. A number input stores `''`, a number, or NaN. */
  datatype Slot = Undefined | Str(s: string) | Num(r: real) | NaN | List(items: seq<string>)

  /** The form object's properties. */
  datatype Key =
    | Direction | ShipmentType | ContainerType | NumberOfContainers | Commodity | Incoterm
    | SpecialHandling | Origin | Destination | Weight | Volume | Insurance
    | AdditionalServices | Carrier

  /** The property name of each key. */
  function KeyName(k: Key): string {
    match k
    case Direction => "direction"
    case ShipmentType => "shipmentType"
    case ContainerType => "containerType"
    case NumberOfContainers => "numberOfContainers"
    case Commodity => "commodity"
    case Incoterm => "incoterm"
    case SpecialHandling => "specialHandling"
    case Origin => "origin"
    case Destination => "destination"
    case Weight => "weight"
    case Volume => "volume"
    case Insurance => "insurance"
    case AdditionalServices => "additionalServices"
    case Carrier => "carrier"
  }

  /** The form object, and an error map, keyed by property. */
  type QuoteState = map<Key, Slot>
  type QuoteErrorMap = map<Key, string>

  /** `Number(s)` for a non-empty input string, `None` for NaN. */
  type Parser = string -> Option<real>

  /** The keys the single-value selects write. */
  predicate IsSelect(k: Key) {
    || k.Direction? || k.ShipmentType? || k.ContainerType? || k.Commodity?
    || k.Incoterm? || k.SpecialHandling? || k.Insurance?
  }

  /** The keys the `type="number"` inputs write. */
  predicate IsNumberInput(k: Key) {
    k.NumberOfContainers? || k.Weight? || k.Volume?
  }

  /** The keys the `type="text"` inputs write. */
  predicate IsTextInput(k: Key) {
    k == Origin || k == Destination
  }

  function InitialQuote(): QuoteState {
    map[
      Direction := Str(""), ShipmentType := Str(""), ContainerType := Str(""),
      NumberOfContainers := Num(1.0), Commodity := Str(""), Incoterm := Str(""),
      SpecialHandling := Str(""), Origin := Str(""), Destination := Str(""),
      Weight := Str(""), Volume := Str(""), Insurance := Str(""),
      AdditionalServices := List([]), Carrier := Str("")]
  }

  function Lookup(form: QuoteState, key: Key): Slot {
    if key in form then form[key] else Undefined
  }

  predicate Truthy(v: Slot) {
    match v
    case Undefined => false
    case Str(s) => s != ""
    case Num(r) => r != 0.0
    case NaN => false
    case List(_) => true
  }

  /** `Number(v)`, `None` for NaN. */
  function ToNumber(parse: Parser, v: Slot): Option<real> {
    match v
    case Str(s) => parse(s)
    case Num(r) => Some(r)
    case _ => None
  }

  /** The shape every reachable form has: every key present, a string under the
      select, text and carrier keys, `''`, a number or NaN under the number keys,
      and a list under `additionalServices`. */
  predicate WellTyped(form: QuoteState) {
    forall k: Key :: k in form && SlotFits(k, form[k])
  }

  predicate SlotFits(k: Key, v: Slot) {
    if IsNumberInput(k) then v == Str("") || v.Num? || v.NaN?
    else if k == AdditionalServices then v.List?
    else v.Str?
  }

  /** The form's origin and destination are strings, as `validate` assumes. */
  predicate PlacesAreText(form: QuoteState) {
    Lookup(form, Origin).Str? && Lookup(form, Destination).Str?
  }

  // ----- the handlers -----

  /** `handleSelectChange(name)`: the chosen option's value, `''` when cleared. */
  function SelectChange(form: QuoteState, name: Key, selected: Option<string>): QuoteState {
    form[name := Str(selected.GetOr(""))]
  }

  /** `handleMultiSelectChange`: the chosen values, `[]` when there is no selection. */
  function MultiSelectChange(form: QuoteState, selected: Option<seq<string>>): QuoteState {
    form[AdditionalServices := List(selected.GetOr([]))]
  }

  /** `handleCarrierChange`: the chosen values joined by commas, `''` when the
      selection is not a list. */
  function CarrierChange(form: QuoteState, selected: Option<seq<string>>): QuoteState {
    form[Carrier := Str(if selected.Some? then Join(selected.value, ',') else "")]
  }

  /** What the carrier select displays for a stored string. */
  function CarriersShown(carrier: string): seq<string> {
    if carrier != "" then Split(carrier, ',') else []
  }

  /** `handleChange` for an input: a number input stores `''` or `Number(value)`, a
      text input the string itself. */
  function InputChange(parse: Parser, form: QuoteState, name: Key, value: string): QuoteState {
    var v :=
      if IsNumberInput(name) then
        (if value == "" then Str("") else match parse(value) case None => NaN case Some(r) => Num(r))
      else Str(value);
    form[name := v]
  }

  /** The slot each key starts with. */
  lemma InitialSlot(k: Key)
    ensures k in InitialQuote()
    ensures InitialQuote()[k] ==
      if k == NumberOfContainers then Num(1.0)
      else if k == AdditionalServices then List([])
      else Str("")
  {
    match k
    case Direction =>
    case ShipmentType =>
    case ContainerType =>
    case NumberOfContainers =>
    case Commodity =>
    case Incoterm =>
    case SpecialHandling =>
    case Origin =>
    case Destination =>
    case Weight =>
    case Volume =>
    case Insurance =>
    case AdditionalServices =>
    case Carrier =>
  }

  lemma InitialWellTyped()
    ensures WellTyped(InitialQuote())
  {
    forall k: Key ensures k in InitialQuote() && SlotFits(k, InitialQuote()[k]) {
      InitialSlot(k);
    }
  }

  /** Every handler, used on the keys the page wires it to, keeps the form's shape. */
  lemma HandlersKeepWellTyped(parse: Parser, form: QuoteState, name: Key, choice: Option<string>,
                              many: Option<seq<string>>, value: string)
    requires WellTyped(form)
    ensures IsSelect(name) ==> WellTyped(SelectChange(form, name, choice))
    ensures IsNumberInput(name) || IsTextInput(name) ==> WellTyped(InputChange(parse, form, name, value))
    ensures WellTyped(MultiSelectChange(form, many))
    ensures WellTyped(CarrierChange(form, many))
  {
  }

  /** A single-select change sets that key to the choice, or `''` when cleared, and
      leaves every other key as it was. */
  lemma SelectChangeOneKey(form: QuoteState, name: Key, choice: Option<string>, other: Key)
    ensures Lookup(SelectChange(form, name, choice), name) == Str(if choice.Some? then choice.value else "")
    ensures other != name ==> Lookup(SelectChange(form, name, choice), other) == Lookup(form, other)
  {
  }

  /** Joining gives the empty string only for no values or for the one empty value. */
  lemma {:induction false} JoinNonEmpty(xs: seq<string>, sep: char)
    requires xs != [] && xs != [""]
    ensures Join(xs, sep) != ""
  {
    if |xs| > 1 {
      assert Join(xs, sep) == xs[0] + [sep] + Join(xs[1..], sep);
    }
  }

  /** The carrier round-trip: the display shows the chosen carriers in order when no
      value holds a comma (and the selection is not the single empty value); a
      selection that is not a list shows nothing. */
  lemma CarrierRoundTrip(form: QuoteState, xs: seq<string>)
    requires forall x :: x in xs ==> ',' !in x
    requires xs != [""]
    ensures CarriersShown(Lookup(CarrierChange(form, Some(xs)), Carrier).s) == xs
    ensures CarriersShown(Lookup(CarrierChange(form, None), Carrier).s) == []
  {
    if xs != [] {
      JoinNonEmpty(xs, ',');
      SplitJoin(xs, ',');
    }
  }

  // ----- validation -----

  /** The message a key gets, `None` when the key passes or is not checked. The
      text inputs' blank check reads the trimmed string. */
  function ErrorFor(parse: Parser, form: QuoteState, key: Key): Option<string>
    requires PlacesAreText(form)
  {
    var v := Lookup(form, key);
    match key
    case Direction => if !Truthy(v) then Some("Direction is required.") else None
    case ShipmentType => if !Truthy(v) then Some("Shipment type is required.") else None
    case ContainerType => if !Truthy(v) then Some("Container type is required.") else None
    case NumberOfContainers =>
      if !Truthy(v) || (ToNumber(parse, v).Some? && ToNumber(parse, v).value < 1.0)
      then Some("Enter a valid number of containers.") else None
    case Commodity => if !Truthy(v) then Some("Commodity is required.") else None
    case Incoterm => if !Truthy(v) then Some("INCOTERM is required.") else None
    case SpecialHandling => if !Truthy(v) then Some("Special handling is required.") else None
    case Origin => if AllSpace(v.s) then Some("Origin is required.") else None
    case Destination => if AllSpace(v.s) then Some("Destination is required.") else None
    case Weight =>
      if !Truthy(v) || ToNumber(parse, v).None? || ToNumber(parse, v).value < 0.0
      then Some("Enter a valid weight.") else None
    case Volume =>
      if !Truthy(v) || ToNumber(parse, v).None? || ToNumber(parse, v).value < 0.0
      then Some("Enter a valid volume.") else None
    case Insurance => if !Truthy(v) then Some("Insurance selection is required.") else None
    case AdditionalServices => None
    case Carrier => if !Truthy(v) then Some("Preferred carrier is required.") else None
  }

  /** The error map `validate` returns. */
  function QuoteErrors(parse: Parser, form: QuoteState): QuoteErrorMap
    requires PlacesAreText(form)
  {
    map k: Key | ErrorFor(parse, form, k).Some? :: ErrorFor(parse, form, k).value
  }

  /** The messages of the keys in `done`. */
  function ErrorsOn(parse: Parser, form: QuoteState, done: set<Key>): QuoteErrorMap
    requires PlacesAreText(form)
  {
    map k | k in done && ErrorFor(parse, form, k).Some? :: ErrorFor(parse, form, k).value
  }

  /** Checking one more key adds that key's message, if any. */
  lemma CheckStep(parse: Parser, form: QuoteState, done: set<Key>, key: Key)
    requires PlacesAreText(form)
    ensures ErrorFor(parse, form, key).Some? ==>
      ErrorsOn(parse, form, done + {key}) == ErrorsOn(parse, form, done)[key := ErrorFor(parse, form, key).value]
    ensures ErrorFor(parse, form, key).None? ==>
      ErrorsOn(parse, form, done + {key}) == ErrorsOn(parse, form, done)
  {
  }

  /** Checking every key but `additionalServices` is checking every key. */
  lemma ErrorsOnAll(parse: Parser, form: QuoteState, done: set<Key>)
    requires PlacesAreText(form)
    requires forall k: Key :: k !in done ==> k == AdditionalServices
    ensures ErrorsOn(parse, form, done) == QuoteErrors(parse, form)
  {
  }

  /** One line of `validate`: the check for `key`, setting its message when it fails. */
  method CheckKey(parse: Parser, form: QuoteState, errs: QuoteErrorMap, ghost done: set<Key>, key: Key)
    returns (r: QuoteErrorMap)
    requires PlacesAreText(form) && errs == ErrorsOn(parse, form, done)
    ensures r == ErrorsOn(parse, form, done + {key})
  {
    var v := Lookup(form, key);
    var msg: Option<string> := None;
    match key {
      case Direction =>
        if !Truthy(v) { msg := Some("Direction is required."); }
      case ShipmentType =>
        if !Truthy(v) { msg := Some("Shipment type is required."); }
      case ContainerType =>
        if !Truthy(v) { msg := Some("Container type is required."); }
      case NumberOfContainers =>
        if !Truthy(v) || (ToNumber(parse, v).Some? && ToNumber(parse, v).value < 1.0) {
          msg := Some("Enter a valid number of containers.");
        }
      case Commodity =>
        if !Truthy(v) { msg := Some("Commodity is required."); }
      case Incoterm =>
        if !Truthy(v) { msg := Some("INCOTERM is required."); }
      case SpecialHandling =>
        if !Truthy(v) { msg := Some("Special handling is required."); }
      case Origin =>
        if Trim(v.s) == "" { msg := Some("Origin is required."); }
      case Destination =>
        if Trim(v.s) == "" { msg := Some("Destination is required."); }
      case Weight =>
        if !Truthy(v) || ToNumber(parse, v).None? || ToNumber(parse, v).value < 0.0 {
          msg := Some("Enter a valid weight.");
        }
      case Volume =>
        if !Truthy(v) || ToNumber(parse, v).None? || ToNumber(parse, v).value < 0.0 {
          msg := Some("Enter a valid volume.");
        }
      case Insurance =>
        if !Truthy(v) { msg := Some("Insurance selection is required."); }
      case AdditionalServices =>
      case Carrier =>
        if !Truthy(v) { msg := Some("Preferred carrier is required."); }
    }
    assert msg == ErrorFor(parse, form, key);
    CheckStep(parse, form, done, key);
    r := if msg.Some? then errs[key := msg.value] else errs;
  }

  /** `validate`: the thirteen checks in the page's order; `additionalServices` is not
      one of them. */
  method Validate(parse: Parser, form: QuoteState) returns (errs: QuoteErrorMap)
    requires PlacesAreText(form)
    ensures errs == QuoteErrors(parse, form)
  {
    errs := map[];
    ghost var done: set<Key> := {};
    assert errs == ErrorsOn(parse, form, done);
    errs := CheckKey(parse, form, errs, done, Direction); done := done + {Direction};
    errs := CheckKey(parse, form, errs, done, ShipmentType); done := done + {ShipmentType};
    errs := CheckKey(parse, form, errs, done, ContainerType); done := done + {ContainerType};
    errs := CheckKey(parse, form, errs, done, NumberOfContainers); done := done + {NumberOfContainers};
    errs := CheckKey(parse, form, errs, done, Commodity); done := done + {Commodity};
    errs := CheckKey(parse, form, errs, done, Incoterm); done := done + {Incoterm};
    errs := CheckKey(parse, form, errs, done, SpecialHandling); done := done + {SpecialHandling};
    errs := CheckKey(parse, form, errs, done, Origin); done := done + {Origin};
    errs := CheckKey(parse, form, errs, done, Destination); done := done + {Destination};
    errs := CheckKey(parse, form, errs, done, Weight); done := done + {Weight};
    errs := CheckKey(parse, form, errs, done, Volume); done := done + {Volume};
    errs := CheckKey(parse, form, errs, done, Insurance); done := done + {Insurance};
    errs := CheckKey(parse, form, errs, done, Carrier); done := done + {Carrier};
    ErrorsOnAll(parse, form, done);
  }

  // ----- what validation means -----

  /** A quote a customer has filled in completely: every select and the carrier
      chosen, origin and destination holding a non-blank character, the container
      count a number of at least 1, and weight and volume strictly positive numbers. */
  predicate QuoteComplete(form: QuoteState)
    requires WellTyped(form)
  {
    && (forall k :: IsSelect(k) ==> form[k].s != "")
    && form[Carrier].s != ""
    && !AllSpace(form[Origin].s) && !AllSpace(form[Destination].s)
    && form[NumberOfContainers].Num? && form[NumberOfContainers].r >= 1.0
    && form[Weight].Num? && form[Weight].r > 0.0
    && form[Volume].Num? && form[Volume].r > 0.0
  }

  /** A form with no error is complete. */
  lemma NoErrorsComplete(parse: Parser, form: QuoteState)
    requires WellTyped(form) && PlacesAreText(form)
    requires QuoteErrors(parse, form) == map[]
    ensures QuoteComplete(form)
  {
    forall k: Key ensures ErrorFor(parse, form, k).None? {
      assert k !in QuoteErrors(parse, form);
    }
    forall k | IsSelect(k) ensures form[k].s != "" {
      assert SlotFits(k, form[k]);
      assert ErrorFor(parse, form, k).None?;
    }
    assert SlotFits(Carrier, form[Carrier]) && ErrorFor(parse, form, Carrier).None?;
    assert SlotFits(NumberOfContainers, form[NumberOfContainers]);
    assert ErrorFor(parse, form, NumberOfContainers).None?;
    assert SlotFits(Weight, form[Weight]) && ErrorFor(parse, form, Weight).None?;
    assert SlotFits(Volume, form[Volume]) && ErrorFor(parse, form, Volume).None?;
    assert ErrorFor(parse, form, Origin).None? && ErrorFor(parse, form, Destination).None?;
  }

  /** Each check passes on a complete form. */
  lemma CompleteKeyPasses(parse: Parser, form: QuoteState, k: Key)
    requires WellTyped(form) && PlacesAreText(form)
    requires QuoteComplete(form)
    ensures ErrorFor(parse, form, k).None?
  {
    assert SlotFits(k, form[k]);
    if IsSelect(k) {
      assert form[k].s != "";
    }
  }

  /** A complete form has no error. */
  lemma CompleteNoErrors(parse: Parser, form: QuoteState)
    requires WellTyped(form) && PlacesAreText(form)
    requires QuoteComplete(form)
    ensures QuoteErrors(parse, form) == map[]
  {
    forall k: Key ensures ErrorFor(parse, form, k).None? {
      CompleteKeyPasses(parse, form, k);
    }
    assert forall k :: k !in QuoteErrors(parse, form);
  }

  /** A well-typed form passes exactly when it is complete; in particular a zero
      weight or volume, being falsy, is rejected. */
  lemma QuoteValidIff(parse: Parser, form: QuoteState)
    requires WellTyped(form)
    ensures PlacesAreText(form)
    ensures QuoteErrors(parse, form) == map[] <==> QuoteComplete(form)
  {
    assert SlotFits(Origin, form[Origin]) && SlotFits(Destination, form[Destination]);
    if QuoteErrors(parse, form) == map[] {
      NoErrorsComplete(parse, form);
    }
    if QuoteComplete(form) {
      CompleteNoErrors(parse, form);
    }
  }

  /** The initial form fails every check but the container count. */
  lemma InitialQuoteErrors(parse: Parser)
    ensures PlacesAreText(InitialQuote())
    ensures forall k: Key :: k in QuoteErrors(parse, InitialQuote()) <==> k != NumberOfContainers && k != AdditionalServices
  {
    var form := InitialQuote();
    InitialSlot(Origin);
    InitialSlot(Destination);
    forall k: Key ensures k in QuoteErrors(parse, form) <==> k != NumberOfContainers && k != AdditionalServices {
      InitialSlot(k);
      assert Lookup(form, k) == form[k];
      assert (ErrorFor(parse, form, k).Some?) == (k != NumberOfContainers && k != AdditionalServices);
    }
  }

  /** The additional services are never checked: any list there gives the same errors. */
  lemma AdditionalServicesUnchecked(parse: Parser, form: QuoteState, services: Option<seq<string>>)
    requires PlacesAreText(form)
    ensures AdditionalServices !in QuoteErrors(parse, form)
    ensures QuoteErrors(parse, MultiSelectChange(form, services)) == QuoteErrors(parse, form)
  {
    var form2 := MultiSelectChange(form, services);
    forall k: Key ensures ErrorFor(parse, form2, k) == ErrorFor(parse, form, k) {
      assert k != AdditionalServices ==> Lookup(form2, k) == Lookup(form, k);
    }
  }

  // ----- the page -----

  class QuotePage {
    const parse: Parser
    var form: QuoteState
    var errors: QuoteErrorMap

    constructor(parse: Parser)
      ensures this.parse == parse && form == InitialQuote() && errors == map[]
    {
      this.parse := parse;
      form := InitialQuote();
      errors := map[];
    }

    method HandleSelectChange(name: Key, selected: Option<string>)
      modifies this`form
      ensures form == SelectChange(old(form), name, selected)
    {
      var v := if selected.Some? then selected.value else "";
      form := form[name := Str(v)];
    }

    method HandleMultiSelectChange(selected: Option<seq<string>>)
      modifies this`form
      ensures form == MultiSelectChange(old(form), selected)
    {
      var vs := if selected.Some? then selected.value else [];
      form := form[AdditionalServices := List(vs)];
    }

    method HandleCarrierChange(selected: Option<seq<string>>)
      modifies this`form
      ensures form == CarrierChange(old(form), selected)
    {
      var joined := if selected.Some? then Join(selected.value, ',') else "";
      form := form[Carrier := Str(joined)];
    }

    method HandleChange(name: Key, value: string)
      modifies this`form
      ensures form == InputChange(parse, old(form), name, value)
    {
      var v: Slot;
      if IsNumberInput(name) {
        if value == "" {
          v := Str("");
        } else {
          match parse(value)
          case None => v := NaN;
          case Some(r) => v := Num(r);
        }
      } else {
        v := Str(value);
      }
      form := form[name := v];
    }

    /** `handleSubmit`: the error map is stored, or cleared when it is empty. */
    method HandleSubmit()
      requires PlacesAreText(form)
      modifies this`errors
      ensures errors == QuoteErrors(parse, form)
    {
      var errs := Validate(parse, form);
      if |errs| > 0 {
        errors := errs;
        return;
      }
      errors := map[];
    }
  }
}
