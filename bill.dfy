/**
 * The bill record that the new-bill form assembles on submit, and the
 * `pct || 20` default.
 */
module Bills {
  import opened Wrappers
  import opened JsNumbers

  datatype Status = Pending | Accepted | Refused

  /** The record built at src/containers/NewBill.js:65-77. `amount` is `None`
      where `parseInt` gave `NaN`. There is no `billId` field: the identifier
      only selects the record to update. The source's key `type` is
      `expenseType` here, `type` being a keyword of Dafny. */
  datatype Bill = Bill(
    email: string,
    expenseType: string,
    name: string,
    amount: Option<int>,
    date: string,
    vat: string,
    pct: int,
    commentary: string,
    fileUrl: Option<string>,
    fileName: Option<string>,
    status: Status)

  /** The values of the form's inputs, read as strings. */
  datatype FormValues = FormValues(
    expenseType: string,
    name: string,
    amount: string,
    date: string,
    vat: string,
    pct: string,
    commentary: string)

  /** JavaScript truthiness of a number: `NaN` and zero are falsy. */
  predicate Truthy(n: Option<int>) {
    n.Some? && n.value != 0
  }

  /** `parseInt(field) || 20`. */
  function Pct(field: string): (pct: int)
    ensures pct != 0
    ensures Truthy(ParseInt(field)) ==> ParseInt(field) == Some(pct)
    ensures !Truthy(ParseInt(field)) ==> pct == 20
  {
    if Truthy(ParseInt(field)) then ParseInt(field).value else 20
  }

  /** The bill submitted for the form values, the session user's email and
      the attachment currently held by the form. */
  function AssembleBill(email: string, form: FormValues, fileUrl: Option<string>, fileName: Option<string>): (bill: Bill)
    ensures bill.status == Pending && bill.email == email
    ensures bill.expenseType == form.expenseType && bill.name == form.name && bill.commentary == form.commentary
    ensures bill.date == form.date && bill.vat == form.vat
    ensures bill.amount == ParseInt(form.amount)
    ensures Truthy(ParseInt(form.pct)) ==> ParseInt(form.pct) == Some(bill.pct)
    ensures !Truthy(ParseInt(form.pct)) ==> bill.pct == 20
    ensures bill.fileUrl == fileUrl && bill.fileName == fileName
  {
    Bill(email, form.expenseType, form.name, ParseInt(form.amount), form.date, form.vat,
         Pct(form.pct), form.commentary, fileUrl, fileName, Pending)
  }

  /** The numeral of a non-zero integer gives that percentage; zero, like
      `NaN`, gives 20. */
  lemma PctOfNumeral(i: int)
    ensures Pct(IntString(i)) == if i == 0 then 20 else i
  {
    ParseIntOfNumeral(i, []);
    assert IntString(i) + [] == IntString(i);
  }

  /** A percentage field with no decimal digit after its white space and
      optional sign gives 20. */
  lemma PctOfNonNumeric(field: string)
    requires var u := TrimStart(field);
             var v := if u != [] && (u[0] == '+' || u[0] == '-') then u[1..] else u;
             v == [] || !IsDigit(v[0], 10)
    ensures Pct(field) == 20
  {
    if ParseInt(field).Some? {
      ParseIntNeedsDigit(field);
    }
  }

  /** A signed or zero-padded field is read for its value: `+20` gives 20
      and `05` gives 5. */
  lemma PctOfSignedAndPadded(plus: string, padded: string)
    requires plus == "+20" && padded == "05"
    ensures Pct(plus) == 20 && Pct(padded) == 5
  {
    var twenty, five := plus[1..], padded;
    assert plus == [] + (plus[..1] + (twenty + []));
    assert padded == [] + ([] + (five + []));
    assert twenty == DecimalString(20);
    assert five[..1] == DecimalString(0);
    assert DigitsValue(five, 10) == 5;
    ParseIntDecimal([], plus[..1], twenty, [], 20);
    ParseIntDecimal([], [], five, [], 5);
  }

  /** Submitting amount "300" with an empty percentage gives 300 and 20. */
  lemma AssembleBillScenario(email: string, form: FormValues)
    requires form.amount == "300" && form.pct == ""
    ensures AssembleBill(email, form, None, None).amount == Some(300)
    ensures AssembleBill(email, form, None, None).pct == 20
  {
    assert IntString(300) == "300";
    ParseIntOfNumeral(300, []);
    assert IntString(300) + [] == "300";
    PctOfNonNumeric("");
  }
}
