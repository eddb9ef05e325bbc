/** CategoryEnum, ConditionEnum and DonationEnum with their case-insensitive name
    lookups, and EnumValidatorImpl, the bean-validation check over an enum's names. */
module Enums {
  import opened Outcomes
  import opened Text
  import opened Errors

  // ---------------------------------------------------------------------------
  // Looking a name up, ignoring case
  // ---------------------------------------------------------------------------

  /** The index of the first name equal to `value` ignoring case: the
      filter(equalsIgnoreCase).findFirst() over values() of the enums. */
  function FirstIgnoringCase(names: seq<string>, value: string): (r: Option<nat>)
    ensures r.Some? ==> r.value < |names| && EqualsIgnoreCase(names[r.value], value)
    ensures r.Some? ==> forall j :: 0 <= j < r.value ==> !EqualsIgnoreCase(names[j], value)
    ensures r.None? ==> forall j :: 0 <= j < |names| ==> !EqualsIgnoreCase(names[j], value)
    decreases |names|
  {
    if names == [] then None
    else if EqualsIgnoreCase(names[0], value) then Some(0)
    else match FirstIgnoringCase(names[1..], value)
      case None => None
      case Some(i) => Some(i + 1)
  }

  /** A Java constant name: upper-case ASCII letters, digits and underscores. */
  predicate IsConstantName(name: string) {
    forall i :: 0 <= i < |name| ==> 'A' <= name[i] <= 'Z' || '0' <= name[i] <= '9' || name[i] == '_'
  }

  predicate Distinct(names: seq<string>) {
    forall i, j :: 0 <= i < j < |names| ==> names[i] != names[j]
  }

  /** Two constant names are equal ignoring case only when they are equal, and a
      case variant of one constant name is equal ignoring case to no other. */
  lemma ConstantNameMatch(name: string, other: string, v: string)
    requires IsConstantName(name) && IsConstantName(other) && IsCaseVariant(v, name)
    requires EqualsIgnoreCase(other, v)
    ensures other == name
  {
    forall i | 0 <= i < |name|
      ensures other[i] == name[i]
    {
      assert CharEqualsIgnoreCase(other[i], v[i]);
    }
  }

  /** Among distinct constant names, any case variant of the i-th is found at i. */
  lemma {:induction false} FindsCaseVariant(names: seq<string>, i: nat, v: string)
    requires forall k :: 0 <= k < |names| ==> IsConstantName(names[k])
    requires Distinct(names)
    requires i < |names| && IsCaseVariant(v, names[i])
    ensures FirstIgnoringCase(names, v) == Some(i)
  {
    CaseVariantEqualsIgnoreCase(v, names[i]);
    var r := FirstIgnoringCase(names, v);
    assert r.Some?;
    if r.value != i {
      ConstantNameMatch(names[i], names[r.value], v);
      assert false;
    }
  }

  /** Distinct, non-empty constant names: the names of an enum's constants. */
  predicate WellFormedNames(names: seq<string>) {
    && (forall k :: 0 <= k < |names| ==> IsConstantName(names[k]) && |names[k]| > 0)
    && Distinct(names)
  }

  /** No constant name matches a value with a space in it. */
  lemma SpaceNeverMatches(names: seq<string>, v: string, p: nat)
    requires forall k :: 0 <= k < |names| ==> IsConstantName(names[k])
    requires p < |v| && v[p] == ' '
    ensures FirstIgnoringCase(names, v) == None
  {
    forall k | 0 <= k < |names|
      ensures !EqualsIgnoreCase(names[k], v)
    {
      if |names[k]| == |v| {
        assert !CharEqualsIgnoreCase(names[k][p], v[p]);
      }
    }
  }

  /** No non-empty name matches the empty string. */
  lemma EmptyNeverMatches(names: seq<string>)
    requires forall k :: 0 <= k < |names| ==> |names[k]| > 0
    ensures FirstIgnoringCase(names, "") == None
  {
  }

  /** Every string is a case variant of itself. */
  lemma SelfVariant(s: string)
    ensures IsCaseVariant(s, s)
  {
  }

  // ---------------------------------------------------------------------------
  // CategoryEnum
  // ---------------------------------------------------------------------------

  datatype Category =
    | Furniture | Electronics | Books | Vehicle | Clothing | Toys | SportsEquipment
    | HomeAppliances | Healthcare | SchoolSupplies | Food | BabyProducts | PetSupplies
    | ArtSupplies | Tools | MusicalInstruments | Misc
  {
    /** name(). */
    function Name(): string {
      match this
      case Furniture => "FURNITURE"
      case Electronics => "ELECTRONICS"
      case Books => "BOOKS"
      case Vehicle => "VEHICLE"
      case Clothing => "CLOTHING"
      case Toys => "TOYS"
      case SportsEquipment => "SPORTS_EQUIPMENT"
      case HomeAppliances => "HOME_APPLIANCES"
      case Healthcare => "HEALTHCARE"
      case SchoolSupplies => "SCHOOL_SUPPLIES"
      case Food => "FOOD"
      case BabyProducts => "BABY_PRODUCTS"
      case PetSupplies => "PET_SUPPLIES"
      case ArtSupplies => "ART_SUPPLIES"
      case Tools => "TOOLS"
      case MusicalInstruments => "MUSICAL_INSTRUMENTS"
      case Misc => "MISC"
    }

    /** ordinal(): the position in values(). */
    function Ordinal(): (n: nat)
      ensures n < |Categories| && Categories[n] == this
    {
      match this
      case Furniture => 0
      case Electronics => 1
      case Books => 2
      case Vehicle => 3
      case Clothing => 4
      case Toys => 5
      case SportsEquipment => 6
      case HomeAppliances => 7
      case Healthcare => 8
      case SchoolSupplies => 9
      case Food => 10
      case BabyProducts => 11
      case PetSupplies => 12
      case ArtSupplies => 13
      case Tools => 14
      case MusicalInstruments => 15
      case Misc => 16
    }

    /** getLabel(). */
    function Label(): string {
      match this
      case Furniture => "Furniture"
      case Electronics => "Electronics"
      case Books => "Books"
      case Vehicle => "Vehicle"
      case Clothing => "Clothing"
      case Toys => "Toys"
      case SportsEquipment => "Sports Equipment"
      case HomeAppliances => "Home Appliances"
      case Healthcare => "Healthcare"
      case SchoolSupplies => "School Supplies"
      case Food => "Food"
      case BabyProducts => "Baby Products"
      case PetSupplies => "Pet Supplies"
      case ArtSupplies => "Art Supplies"
      case Tools => "Tools"
      case MusicalInstruments => "Musical Instruments"
      case Misc => "Miscellaneous"
    }
  }

  /** values(), in declaration order. */
  const Categories: seq<Category> :=
    [Furniture, Electronics, Books, Vehicle, Clothing, Toys, SportsEquipment, HomeAppliances, Healthcare,
     SchoolSupplies, Food, BabyProducts, PetSupplies, ArtSupplies, Tools, MusicalInstruments, Misc]

  function CategoryNames(): seq<string>
  {
    seq(|Categories|, i requires 0 <= i < |Categories| => Categories[i].Name())
  }

  const CategoryNameList: seq<string> :=
    ["FURNITURE", "ELECTRONICS", "BOOKS", "VEHICLE", "CLOTHING", "TOYS", "SPORTS_EQUIPMENT",
     "HOME_APPLIANCES", "HEALTHCARE", "SCHOOL_SUPPLIES", "FOOD", "BABY_PRODUCTS", "PET_SUPPLIES",
     "ART_SUPPLIES", "TOOLS", "MUSICAL_INSTRUMENTS", "MISC"]

  lemma CategoryNamesSpelledOut()
    ensures CategoryNames() == CategoryNameList
  {
  }

  lemma CategoryNameListDistinct()
    ensures Distinct(CategoryNameList)
  {
  }

  lemma CategoryNameListConstant()
    ensures forall k :: 0 <= k < |CategoryNameList| ==> IsConstantName(CategoryNameList[k])
  {
  }

  lemma CategoryNameListNonEmpty()
    ensures forall k :: 0 <= k < |CategoryNameList| ==> |CategoryNameList[k]| > 0
  {
  }

  /** The names are distinct, non-empty constant names. */
  lemma CategoryNamesWellFormed()
    ensures WellFormedNames(CategoryNames())
  {
    CategoryNamesSpelledOut();
    CategoryNameListDistinct();
    CategoryNameListConstant();
    CategoryNameListNonEmpty();
  }

  /** fromString; a null value prints as "null" in the message. */
  function CategoryFromString(value: Option<string>): (r: Result<Category, Exception>)
    ensures r.Success? ==> value.Some? && EqualsIgnoreCase(r.value.Name(), value.value)
    ensures r.Failure? ==> r.error == IllegalArgument("Invalid category: " + value.GetOr("null"))
  {
    var text := value.GetOr("null");
    if value.Some? && FirstIgnoringCase(CategoryNames(), text).Some? then
      Success(Categories[FirstIgnoringCase(CategoryNames(), text).value])
    else
      Failure(IllegalArgument("Invalid category: " + text))
  }

  /** fromString finds every constant by its name in any mix of cases. */
  lemma CategoryFromStringIgnoresCase(c: Category, v: string)
    requires IsCaseVariant(v, c.Name())
    ensures CategoryFromString(Some(v)) == Success(c)
  {
    CategoryNamesWellFormed();
    FindsCaseVariant(CategoryNames(), c.Ordinal(), v);
  }

  /** fromString(c.name()) is c for every constant. */
  lemma CategoryRoundTrip(c: Category)
    ensures CategoryFromString(Some(c.Name())) == Success(c)
  {
    SelfVariant(c.Name());
    CategoryFromStringIgnoresCase(c, c.Name());
  }

  /** Multi-word labels, such as "Sports Equipment", are not names and are refused. */
  lemma CategoryLabelWithSpaceRejected(c: Category, p: nat)
    requires p < |c.Label()| && c.Label()[p] == ' '
    ensures CategoryFromString(Some(c.Label())) == Failure(IllegalArgument("Invalid category: " + c.Label()))
  {
    CategoryNamesWellFormed();
    SpaceNeverMatches(CategoryNames(), c.Label(), p);
  }

  /** "Miscellaneous", MISC's label, is refused, and so is null. */
  lemma CategoryRefusals()
    ensures CategoryFromString(Some("Miscellaneous")) == Failure(IllegalArgument("Invalid category: Miscellaneous"))
    ensures CategoryFromString(None) == Failure(IllegalArgument("Invalid category: null"))
  {
    assert "Invalid category: " + "null" == "Invalid category: null";
    assert "Invalid category: " + "Miscellaneous" == "Invalid category: Miscellaneous";
    MiscellaneousNeverMatches();
  }

  /** The empty string is refused. */
  lemma CategoryRefusesEmpty()
    ensures CategoryFromString(Some("")) == Failure(IllegalArgument("Invalid category: "))
  {
    CategoryNamesWellFormed();
    EmptyNeverMatches(CategoryNames());
    assert "Invalid category: " + "" == "Invalid category: ";
  }

  /** A one-word label is its name in another case and is accepted. */
  lemma CategoryOneWordLabel()
    ensures CategoryFromString(Some("Furniture")) == Success(Furniture)
  {
    CategoryFromStringIgnoresCase(Furniture, "Furniture");
  }

  /** The only 13-character name is BABY_PRODUCTS, whose first letter differs. */
  lemma MiscellaneousNeverMatches()
    ensures FirstIgnoringCase(CategoryNames(), "Miscellaneous") == None
  {
    CategoryNamesSpelledOut();
    var names := CategoryNameList;
    assert forall k :: 0 <= k < |names| && |names[k]| == 13 ==> names[k][0] == 'B';
    forall k | 0 <= k < |names|
      ensures !EqualsIgnoreCase(names[k], "Miscellaneous")
    {
      if |names[k]| == 13 {
        assert !CharEqualsIgnoreCase(names[k][0], "Miscellaneous"[0]);
      }
    }
  }

  // ---------------------------------------------------------------------------
  // ConditionEnum
  // ---------------------------------------------------------------------------

  datatype Condition = New | LikeNew | Good | Fair | Poor | Damaged {
    function Name(): string {
      match this
      case New => "NEW"
      case LikeNew => "LIKE_NEW"
      case Good => "GOOD"
      case Fair => "FAIR"
      case Poor => "POOR"
      case Damaged => "DAMAGED"
    }

    function Ordinal(): (n: nat)
      ensures n < |Conditions| && Conditions[n] == this
    {
      match this
      case New => 0
      case LikeNew => 1
      case Good => 2
      case Fair => 3
      case Poor => 4
      case Damaged => 5
    }

    /** getDescription(). */
    function Description(): string {
      match this
      case New => "Brand New"
      case LikeNew => "Like New"
      case Good => "Good Condition"
      case Fair => "Fair Condition"
      case Poor => "Poor Condition"
      case Damaged => "Damaged"
    }
  }

  const Conditions: seq<Condition> := [New, LikeNew, Good, Fair, Poor, Damaged]

  function ConditionNames(): seq<string>
  {
    seq(|Conditions|, i requires 0 <= i < |Conditions| => Conditions[i].Name())
  }

  lemma ConditionNamesWellFormed()
    ensures WellFormedNames(ConditionNames())
  {
    assert ConditionNames() == ["NEW", "LIKE_NEW", "GOOD", "FAIR", "POOR", "DAMAGED"];
  }

  /** isValid: anyMatch of equalsIgnoreCase, which is false for null. */
  predicate ConditionIsValid(value: Option<string>) {
    value.Some? && FirstIgnoringCase(ConditionNames(), value.value).Some?
  }

  /** isValid holds exactly for a value equal, ignoring case, to some name. */
  lemma ConditionIsValidIff(value: Option<string>)
    ensures ConditionIsValid(value) <==>
      value.Some? && exists c: Condition :: EqualsIgnoreCase(c.Name(), value.value)
  {
    if value.Some? && exists c: Condition :: EqualsIgnoreCase(c.Name(), value.value) {
      var c: Condition :| EqualsIgnoreCase(c.Name(), value.value);
      assert EqualsIgnoreCase(ConditionNames()[c.Ordinal()], value.value);
    }
  }

  /** Every name in any mix of cases is valid; null, the empty string and a
      description with a space, such as "Brand New", are not. */
  lemma ConditionExamples(c: Condition, v: string, p: nat)
    requires IsCaseVariant(v, c.Name())
    requires p < |c.Description()| && c.Description()[p] == ' '
    ensures ConditionIsValid(Some(v))
    ensures ConditionIsValid(Some(c.Name()))
    ensures !ConditionIsValid(Some(c.Description()))
    ensures !ConditionIsValid(None)
    ensures !ConditionIsValid(Some(""))
  {
    ConditionNamesWellFormed();
    FindsCaseVariant(ConditionNames(), c.Ordinal(), v);
    SelfVariant(c.Name());
    FindsCaseVariant(ConditionNames(), c.Ordinal(), c.Name());
    SpaceNeverMatches(ConditionNames(), c.Description(), p);
    EmptyNeverMatches(ConditionNames());
  }

  // ---------------------------------------------------------------------------
  // DonationEnum
  // ---------------------------------------------------------------------------

  datatype DonationStatus = Pending | Accepted | Rejected {
    function Name(): string {
      match this
      case Pending => "PENDING"
      case Accepted => "ACCEPTED"
      case Rejected => "REJECTED"
    }

    function Ordinal(): (n: nat)
      ensures n < |DonationStatuses| && DonationStatuses[n] == this
    {
      match this
      case Pending => 0
      case Accepted => 1
      case Rejected => 2
    }

    function Description(): string {
      match this
      case Pending => "Pending Approval"
      case Accepted => "Accepted by Recipient"
      case Rejected => "Rejected by Recipient"
    }
  }

  const DonationStatuses: seq<DonationStatus> := [Pending, Accepted, Rejected]

  function DonationStatusNames(): seq<string>
  {
    seq(|DonationStatuses|, i requires 0 <= i < |DonationStatuses| => DonationStatuses[i].Name())
  }

  lemma DonationStatusNamesWellFormed()
    ensures WellFormedNames(DonationStatusNames())
  {
    assert DonationStatusNames() == ["PENDING", "ACCEPTED", "REJECTED"];
  }

  function DonationStatusFromString(value: Option<string>): (r: Result<DonationStatus, Exception>)
    ensures r.Success? ==> value.Some? && EqualsIgnoreCase(r.value.Name(), value.value)
    ensures r.Failure? ==> r.error == IllegalArgument("Invalid donation status: " + value.GetOr("null"))
  {
    var text := value.GetOr("null");
    if value.Some? && FirstIgnoringCase(DonationStatusNames(), text).Some? then
      Success(DonationStatuses[FirstIgnoringCase(DonationStatusNames(), text).value])
    else
      Failure(IllegalArgument("Invalid donation status: " + text))
  }

  /** fromString finds each status by its name in any mix of cases, and refuses
      every description, null and the empty string. */
  lemma DonationStatusFromStringIgnoresCase(s: DonationStatus, v: string, d: DonationStatus)
    requires IsCaseVariant(v, s.Name())
    ensures DonationStatusFromString(Some(v)) == Success(s)
    ensures DonationStatusFromString(Some(s.Name())) == Success(s)
    ensures DonationStatusFromString(Some(d.Description())) == Failure(IllegalArgument("Invalid donation status: " + d.Description()))
    ensures DonationStatusFromString(None) == Failure(IllegalArgument("Invalid donation status: null"))
    ensures DonationStatusFromString(Some("")).Failure?
  {
    DonationStatusNamesWellFormed();
    FindsCaseVariant(DonationStatusNames(), s.Ordinal(), v);
    SelfVariant(s.Name());
    FindsCaseVariant(DonationStatusNames(), s.Ordinal(), s.Name());
    var p := if d == Pending then 7 else 8;
    assert d.Description()[p] == ' ';
    SpaceNeverMatches(DonationStatusNames(), d.Description(), p);
    EmptyNeverMatches(DonationStatusNames());
    assert "Invalid donation status: " + "null" == "Invalid donation status: null";
  }

  // ---------------------------------------------------------------------------
  // EnumValidatorImpl
  // ---------------------------------------------------------------------------

  /** The enumClass of an @EnumValidator annotation. */
  datatype EnumClass = CategoryClass | ConditionClass | DonationClass {
    /** getEnumConstants() mapped to name(), in declaration order. */
    function ConstantNames(): (names: seq<string>)
      ensures WellFormedNames(names)
    {
      match this
      case CategoryClass => CategoryNamesWellFormed(); CategoryNames()
      case ConditionClass => ConditionNamesWellFormed(); ConditionNames()
      case DonationClass => DonationStatusNamesWellFormed(); DonationStatusNames()
    }
  }

  class EnumValidator {
    var enumValues: array<string>

    constructor ()
      ensures enumValues.Length == 0
    {
      enumValues := new string[0];
    }

    /** initialize: the constant names of the annotation's enum class. */
    method Initialize(enumClass: EnumClass)
      modifies this
      ensures fresh(enumValues) && enumValues[..] == enumClass.ConstantNames()
    {
      var names := enumClass.ConstantNames();
      enumValues := new string[|names|](i requires 0 <= i < |names| => names[i]);
    }

    /** isValid: null passes; otherwise some name must equal the value ignoring case. */
    method IsValid(value: Option<string>) returns (valid: bool)
      ensures valid <==> value.None? || exists i :: 0 <= i < enumValues.Length && EqualsIgnoreCase(enumValues[i], value.value)
    {
      if value.None? {
        return true;
      }
      for i := 0 to enumValues.Length
        invariant forall j :: 0 <= j < i ==> !EqualsIgnoreCase(enumValues[j], value.value)
      {
        if EqualsIgnoreCase(enumValues[i], value.value) {
          return true;
        }
      }
      return false;
    }
  }

  /** After initialize, the validator accepts null and every constant name in any
      mix of cases, and refuses the empty string. */
  method ValidatorAfterInitialize(enumClass: EnumClass, v: string, i: nat)
    returns (validator: EnumValidator, acceptsNull: bool, acceptsVariant: bool, acceptsEmpty: bool)
    requires i < |enumClass.ConstantNames()| && IsCaseVariant(v, enumClass.ConstantNames()[i])
    ensures fresh(validator)
    ensures validator.enumValues[..] == enumClass.ConstantNames()
    ensures acceptsNull && acceptsVariant && !acceptsEmpty
  {
    validator := new EnumValidator();
    validator.Initialize(enumClass);
    acceptsNull := validator.IsValid(None);
    CaseVariantEqualsIgnoreCase(v, enumClass.ConstantNames()[i]);
    assert validator.enumValues[i] == enumClass.ConstantNames()[i];
    acceptsVariant := validator.IsValid(Some(v));
    acceptsEmpty := validator.IsValid(Some(""));
    assert !acceptsEmpty by {
      forall j | 0 <= j < validator.enumValues.Length
        ensures !EqualsIgnoreCase(validator.enumValues[j], "")
      {
        assert validator.enumValues[j] == enumClass.ConstantNames()[j];
      }
    }
  }
}
