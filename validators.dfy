/**
 * The FluentValidation rule sets for ProductAddRequest and ProductUpdateRequest.
 * Every rule runs (no short-circuit across properties), and within the
 * ProductName rule both NotEmpty and Length run, so each failing check adds
 * its own failure, in rule order.
 */
module Validators {
  import opened Wrappers
  import opened Guids
  import opened Text
  import opened Entities
  import opened Dto

  /** The request property a rule is attached to. */
  datatype Property = ProductID | ProductName | Category | UnitPrice | QuantityInStock

  /** ValidationFailure.PropertyName: the member's name. */
  function PropertyName(p: Property): string {
    match p
    case ProductID => "ProductID"
    case ProductName => "ProductName"
    case Category => "Category"
    case UnitPrice => "UnitPrice"
    case QuantityInStock => "QuantityInStock"
  }

  datatype ValidationFailure = ValidationFailure(property: Property, errorMessage: string)

  const AddNameRequired := "Product name required"
  const UpdateNameRequired := "Product name is required"
  const NameLength := "Person Name should be 1 to 50 characters long"
  const AddCategoryMessage := "Available product categories are Electronics, HomeAppliances, Furniture"
  const UpdateCategoryMessage := "Available product categories are Electronics, HomeAppliances, Furniture, Accessories"
  const PriceMessage := "Unit Price should between 0 to 1.7976931348623157E+308"
  const QuantityMessage := "Unit Quantity should between 0 to 2147483647"
  const IdRequired := "ProductID is required"

  /** NotEmpty() on a string: not null, not empty, not only whitespace. */
  predicate NameNotEmpty(name: Option<string>) {
    !IsNullOrWhiteSpace(name)
  }

  /** Length(1, 50): a null string passes. */
  predicate NameLengthOk(name: Option<string>) {
    name.None? || 1 <= |name.value| <= 50
  }

  /** IsInEnum(). */
  predicate CategoryOk(category: int32) {
    CategoryFromCode(category).Some?
  }

  /** InclusiveBetween(0, double.MaxValue); the upper bound is not modelled. */
  predicate PriceOk(price: real) {
    0.0 <= price
  }

  /** InclusiveBetween(0, int.MaxValue). */
  predicate QuantityOk(quantity: int32) {
    0 <= quantity <= Int32Max
  }

  /** NotEmpty() on a Guid: not Guid.Empty. */
  predicate IdOk(id: Guid) {
    id != EmptyGuid
  }

  predicate AddRulesHold(r: ProductAddRequest) {
    && NameNotEmpty(r.productName) && NameLengthOk(r.productName)
    && CategoryOk(r.category) && PriceOk(r.unitPrice) && QuantityOk(r.quantityInStock)
  }

  function Check(ok: bool, property: Property, message: string): seq<ValidationFailure> {
    if ok then [] else [ValidationFailure(property, message)]
  }

  /**
   * The position of the check that produces a failure in the rule sets:
   * ProductID's NotEmpty, then ProductName's NotEmpty and Length, then
   * Category, UnitPrice and QuantityInStock.
   */
  function RuleIndex(f: ValidationFailure): nat {
    match f.property
    case ProductID => 0
    case ProductName => if f.errorMessage == NameLength then 2 else 1
    case Category => 3
    case UnitPrice => 4
    case QuantityInStock => 5
  }

  /** Failures appear in the order their checks are declared, at most one per check. */
  predicate InRuleOrder(errors: seq<ValidationFailure>) {
    forall i, j :: 0 <= i < j < |errors| ==> RuleIndex(errors[i]) < RuleIndex(errors[j])
  }

  /** The number of failures a rule adds: one when it does not hold. */
  function FailureCount(b: bool): nat {
    if b then 0 else 1
  }

  /**
   * The failures of the five shared checks, given which of them hold, in
   * declaration order: every rule runs and each failing one adds its message.
   */
  function RuleFailures(nameFilled: bool, nameLength: bool, category: bool, price: bool, quantity: bool,
                        nameRequired: string, categoryMessage: string): (errors: seq<ValidationFailure>)
    requires nameRequired != NameLength
    ensures errors == [] <==> nameFilled && nameLength && category && price && quantity
    ensures ValidationFailure(ProductName, nameRequired) in errors <==> !nameFilled
    ensures ValidationFailure(ProductName, NameLength) in errors <==> !nameLength
    ensures ValidationFailure(Category, categoryMessage) in errors <==> !category
    ensures ValidationFailure(UnitPrice, PriceMessage) in errors <==> !price
    ensures ValidationFailure(QuantityInStock, QuantityMessage) in errors <==> !quantity
    ensures forall e :: e in errors ==> e.property != ProductID
    ensures InRuleOrder(errors)
    ensures |errors| == FailureCount(nameFilled) + FailureCount(nameLength) + FailureCount(category)
                        + FailureCount(price) + FailureCount(quantity)
  {
    ChecksFailExactly(nameFilled, nameLength, category, price, quantity, nameRequired, categoryMessage);
    ChecksInRuleOrder(nameFilled, nameLength, category, price, quantity, nameRequired, categoryMessage);
    Checks(nameFilled, nameLength, category, price, quantity, nameRequired, categoryMessage)
  }

  /** The five shared checks, one after another. */
  function Checks(nameFilled: bool, nameLength: bool, category: bool, price: bool, quantity: bool,
                  nameRequired: string, categoryMessage: string): seq<ValidationFailure>
  {
    Check(nameFilled, ProductName, nameRequired) + Check(nameLength, ProductName, NameLength)
    + Check(category, Category, categoryMessage) + Check(price, UnitPrice, PriceMessage)
    + Check(quantity, QuantityInStock, QuantityMessage)
  }

  /** Each of the five checks contributes its own failure exactly when it does not hold. */
  lemma ChecksFailExactly(nameFilled: bool, nameLength: bool, category: bool, price: bool, quantity: bool,
                          nameRequired: string, categoryMessage: string)
    requires nameRequired != NameLength
    ensures var errors := Checks(nameFilled, nameLength, category, price, quantity, nameRequired, categoryMessage);
      && (errors == [] <==> nameFilled && nameLength && category && price && quantity)
      && (ValidationFailure(ProductName, nameRequired) in errors <==> !nameFilled)
      && (ValidationFailure(ProductName, NameLength) in errors <==> !nameLength)
      && (ValidationFailure(Category, categoryMessage) in errors <==> !category)
      && (ValidationFailure(UnitPrice, PriceMessage) in errors <==> !price)
      && (ValidationFailure(QuantityInStock, QuantityMessage) in errors <==> !quantity)
      && (forall e :: e in errors ==> e.property != ProductID)
      && |errors| == FailureCount(nameFilled) + FailureCount(nameLength) + FailureCount(category)
                     + FailureCount(price) + FailureCount(quantity)
  {
    var a, b := Check(nameFilled, ProductName, nameRequired), Check(nameLength, ProductName, NameLength);
    var c, d := Check(category, Category, categoryMessage), Check(price, UnitPrice, PriceMessage);
    var e := Check(quantity, QuantityInStock, QuantityMessage);
    InFive(a, b, c, d, e);
  }

  /** The failures of the five checks come out in declaration order. */
  lemma ChecksInRuleOrder(nameFilled: bool, nameLength: bool, category: bool, price: bool, quantity: bool,
                          nameRequired: string, categoryMessage: string)
    requires nameRequired != NameLength
    ensures InRuleOrder(Checks(nameFilled, nameLength, category, price, quantity, nameRequired, categoryMessage))
  {
    FiveInOrder(Check(nameFilled, ProductName, nameRequired), Check(nameLength, ProductName, NameLength),
                Check(category, Category, categoryMessage), Check(price, UnitPrice, PriceMessage),
                Check(quantity, QuantityInStock, QuantityMessage));
  }

  lemma InFive(a: seq<ValidationFailure>, b: seq<ValidationFailure>, c: seq<ValidationFailure>,
               d: seq<ValidationFailure>, e: seq<ValidationFailure>)
    ensures forall f :: f in a + b + c + d + e <==> f in a || f in b || f in c || f in d || f in e
    ensures |a + b + c + d + e| == |a| + |b| + |c| + |d| + |e|
  {
  }

  lemma FiveInOrder(a: seq<ValidationFailure>, b: seq<ValidationFailure>, c: seq<ValidationFailure>,
                    d: seq<ValidationFailure>, e: seq<ValidationFailure>)
    requires |a| <= 1 && |b| <= 1 && |c| <= 1 && |d| <= 1 && |e| <= 1
    requires forall f :: f in a ==> RuleIndex(f) == 1
    requires forall f :: f in b ==> RuleIndex(f) == 2
    requires forall f :: f in c ==> RuleIndex(f) == 3
    requires forall f :: f in d ==> RuleIndex(f) == 4
    requires forall f :: f in e ==> RuleIndex(f) == 5
    ensures InRuleOrder(a + b + c + d + e)
  {
    OrderedAppend(a, b);
    OrderedAppend(a + b, c);
    OrderedAppend(a + b + c, d);
    OrderedAppend(a + b + c + d, e);
  }

  /** Two lists in rule order, every failure of the first before every one of the second. */
  lemma OrderedAppend(a: seq<ValidationFailure>, b: seq<ValidationFailure>)
    requires InRuleOrder(a) && InRuleOrder(b)
    requires forall x, y :: x in a && y in b ==> RuleIndex(x) < RuleIndex(y)
    ensures InRuleOrder(a + b)
  {
    forall i, j | 0 <= i < j < |a + b|
      ensures RuleIndex((a + b)[i]) < RuleIndex((a + b)[j])
    {
      if j < |a| {
      } else if i >= |a| {
        assert (a + b)[i] == b[i - |a|] && (a + b)[j] == b[j - |a|];
      } else {
        assert (a + b)[i] == a[i] && (a + b)[j] == b[j - |a|];
      }
    }
  }

  /**
   * The rules both validators declare for ProductName, Category, UnitPrice and
   * QuantityInStock, in declaration order; the two differ only in the wording
   * of two messages.
   */
  function SharedRules(r: ProductAddRequest, nameRequired: string, categoryMessage: string): (errors: seq<ValidationFailure>)
    requires nameRequired != NameLength
    ensures errors == [] <==> AddRulesHold(r)
    ensures ValidationFailure(ProductName, nameRequired) in errors <==> !NameNotEmpty(r.productName)
    ensures ValidationFailure(ProductName, NameLength) in errors <==> !NameLengthOk(r.productName)
    ensures ValidationFailure(Category, categoryMessage) in errors <==> !CategoryOk(r.category)
    ensures ValidationFailure(UnitPrice, PriceMessage) in errors <==> !PriceOk(r.unitPrice)
    ensures ValidationFailure(QuantityInStock, QuantityMessage) in errors <==> !QuantityOk(r.quantityInStock)
    ensures forall e :: e in errors ==> e.property != ProductID
    ensures InRuleOrder(errors)
    ensures |errors| == FailureCount(NameNotEmpty(r.productName)) + FailureCount(NameLengthOk(r.productName))
                        + FailureCount(CategoryOk(r.category)) + FailureCount(PriceOk(r.unitPrice))
                        + FailureCount(QuantityOk(r.quantityInStock))
  {
    RuleFailures(NameNotEmpty(r.productName), NameLengthOk(r.productName), CategoryOk(r.category),
                 PriceOk(r.unitPrice), QuantityOk(r.quantityInStock), nameRequired, categoryMessage)
  }

  /** ProductAddRequestValidator.Validate(r).Errors. */
  function ValidateAdd(r: ProductAddRequest): (errors: seq<ValidationFailure>)
    ensures errors == [] <==> AddRulesHold(r)
    ensures ValidationFailure(ProductName, AddNameRequired) in errors <==> !NameNotEmpty(r.productName)
    ensures ValidationFailure(ProductName, NameLength) in errors <==> !NameLengthOk(r.productName)
    ensures ValidationFailure(Category, AddCategoryMessage) in errors <==> !CategoryOk(r.category)
    ensures ValidationFailure(UnitPrice, PriceMessage) in errors <==> !PriceOk(r.unitPrice)
    ensures ValidationFailure(QuantityInStock, QuantityMessage) in errors <==> !QuantityOk(r.quantityInStock)
    ensures InRuleOrder(errors)
    ensures |errors| == FailureCount(NameNotEmpty(r.productName)) + FailureCount(NameLengthOk(r.productName))
                        + FailureCount(CategoryOk(r.category)) + FailureCount(PriceOk(r.unitPrice))
                        + FailureCount(QuantityOk(r.quantityInStock))
  {
    SharedRules(r, AddNameRequired, AddCategoryMessage)
  }

  /** ProductUpdateRequestValidator.Validate(u).Errors: the ProductID rule comes first. */
  function ValidateUpdate(u: ProductUpdateRequest): (errors: seq<ValidationFailure>)
    ensures errors == [] <==> IdOk(u.productID) && AddRulesHold(SharedFields(u))
    ensures ValidationFailure(ProductID, IdRequired) in errors <==> !IdOk(u.productID)
    ensures ValidationFailure(ProductName, UpdateNameRequired) in errors <==> !NameNotEmpty(u.productName)
    ensures ValidationFailure(ProductName, NameLength) in errors <==> !NameLengthOk(u.productName)
    ensures ValidationFailure(Category, UpdateCategoryMessage) in errors <==> !CategoryOk(u.category)
    ensures ValidationFailure(UnitPrice, PriceMessage) in errors <==> !PriceOk(u.unitPrice)
    ensures ValidationFailure(QuantityInStock, QuantityMessage) in errors <==> !QuantityOk(u.quantityInStock)
    ensures InRuleOrder(errors)
    ensures |errors| == FailureCount(IdOk(u.productID))
                        + FailureCount(NameNotEmpty(u.productName)) + FailureCount(NameLengthOk(u.productName))
                        + FailureCount(CategoryOk(u.category)) + FailureCount(PriceOk(u.unitPrice))
                        + FailureCount(QuantityOk(u.quantityInStock))
  {
    var id := Check(IdOk(u.productID), ProductID, IdRequired);
    var rest := SharedRules(SharedFields(u), UpdateNameRequired, UpdateCategoryMessage);
    IdRuleFirst(id, rest);
    id + rest
  }

  /** The ProductID failure, if any, goes in front of the shared rules' failures. */
  lemma IdRuleFirst(id: seq<ValidationFailure>, rest: seq<ValidationFailure>)
    requires |id| <= 1 && forall f :: f in id ==> f.property == ProductID
    requires InRuleOrder(rest) && forall f :: f in rest ==> f.property != ProductID
    ensures InRuleOrder(id + rest)
    ensures forall f :: f in id + rest <==> f in id || f in rest
    ensures |id + rest| == |id| + |rest|
  {
    assert forall f :: f in rest ==> RuleIndex(f) > 0;
    OrderedAppend(id, rest);
  }

  function Properties(errors: seq<ValidationFailure>): (ps: seq<Property>)
    ensures |ps| == |errors|
  {
    seq(|errors|, i requires 0 <= i < |errors| => errors[i].property)
  }

  function Messages(errors: seq<ValidationFailure>): (messages: seq<string>)
    ensures |messages| == |errors|
    ensures forall i :: 0 <= i < |errors| ==> messages[i] == errors[i].errorMessage
  {
    seq(|errors|, i requires 0 <= i < |errors| => errors[i].errorMessage)
  }

  lemma PropertiesAppend(a: seq<ValidationFailure>, b: seq<ValidationFailure>)
    ensures Properties(a + b) == Properties(a) + Properties(b)
  {
    assert forall i :: 0 <= i < |a + b| ==> Properties(a + b)[i] == (Properties(a) + Properties(b))[i];
  }

  lemma CheckWording(ok: bool, p: Property, m1: string, m2: string)
    ensures Properties(Check(ok, p, m1)) == Properties(Check(ok, p, m2))
  {
  }

  /** Which properties fail does not depend on the wording of the messages. */
  lemma SharedRulesWording(r: ProductAddRequest, n1: string, c1: string, n2: string, c2: string)
    requires n1 != NameLength && n2 != NameLength
    ensures Properties(SharedRules(r, n1, c1)) == Properties(SharedRules(r, n2, c2))
  {
    RuleFailuresWording(NameNotEmpty(r.productName), NameLengthOk(r.productName), CategoryOk(r.category),
                        PriceOk(r.unitPrice), QuantityOk(r.quantityInStock), n1, c1, n2, c2);
  }

  lemma RuleFailuresWording(nameFilled: bool, nameLength: bool, category: bool, price: bool, quantity: bool,
                            n1: string, c1: string, n2: string, c2: string)
    requires n1 != NameLength && n2 != NameLength
    ensures Properties(RuleFailures(nameFilled, nameLength, category, price, quantity, n1, c1))
         == Properties(RuleFailures(nameFilled, nameLength, category, price, quantity, n2, c2))
  {
    var empty1 := Check(nameFilled, ProductName, n1);
    var empty2 := Check(nameFilled, ProductName, n2);
    var length := Check(nameLength, ProductName, NameLength);
    var cat1 := Check(category, Category, c1);
    var cat2 := Check(category, Category, c2);
    var priceCheck := Check(price, UnitPrice, PriceMessage);
    var quantityCheck := Check(quantity, QuantityInStock, QuantityMessage);
    var tail := priceCheck + quantityCheck;
    assert RuleFailures(nameFilled, nameLength, category, price, quantity, n1, c1)
        == empty1 + length + cat1 + priceCheck + quantityCheck;
    assert empty1 + length + cat1 + priceCheck + quantityCheck == empty1 + length + cat1 + tail;
    assert RuleFailures(nameFilled, nameLength, category, price, quantity, n2, c2)
        == empty2 + length + cat2 + priceCheck + quantityCheck;
    assert empty2 + length + cat2 + priceCheck + quantityCheck == empty2 + length + cat2 + tail;
    CheckWording(nameFilled, ProductName, n1, n2);
    CheckWording(category, Category, c1, c2);
    SameShape(empty1, empty2, length, cat1, cat2, tail);
  }

  lemma SameShape(a1: seq<ValidationFailure>, a2: seq<ValidationFailure>, b: seq<ValidationFailure>,
                  c1: seq<ValidationFailure>, c2: seq<ValidationFailure>, d: seq<ValidationFailure>)
    requires Properties(a1) == Properties(a2) && Properties(c1) == Properties(c2)
    ensures Properties(a1 + b + c1 + d) == Properties(a2 + b + c2 + d)
  {
    PropertiesAppend(a1 + b + c1, d);
    PropertiesAppend(a2 + b + c2, d);
    PropertiesAppend(a1 + b, c1);
    PropertiesAppend(a2 + b, c2);
    PropertiesAppend(a1, b);
    PropertiesAppend(a2, b);
  }

  /**
   * The update rules are the add rules on the shared fields plus the ProductID
   * rule placed first.
   */
  lemma UpdateIsAddPlusId(u: ProductUpdateRequest)
    ensures ValidateUpdate(u) == [] <==> IdOk(u.productID) && ValidateAdd(SharedFields(u)) == []
    ensures Properties(ValidateUpdate(u))
            == (if IdOk(u.productID) then [] else [ProductID]) + Properties(ValidateAdd(SharedFields(u)))
  {
    var a := SharedFields(u);
    var idPart := Check(IdOk(u.productID), ProductID, IdRequired);
    SharedRulesWording(a, UpdateNameRequired, UpdateCategoryMessage, AddNameRequired, AddCategoryMessage);
    PropertiesAppend(idPart, SharedRules(a, UpdateNameRequired, UpdateCategoryMessage));
  }
}
