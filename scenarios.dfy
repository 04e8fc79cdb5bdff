/**
 * Runs of the controller through its specifications alone, one per scenario
 * of the form's behaviour.
 */
module NewBillScenarios {
  import opened Wrappers
  import opened Bills
  import opened NewBillForm

  /** Selecting an accepted file issues one create call; once it resolves the
      held identifier is the store's key, and the bill submitted next carries
      the uploaded file and is the update selected by that key. */
  method UploadThenSubmit(selected: string, file: FileObject, email: string, url: string, key: string, form: FormValues)
    returns (bill: Bill, effects: seq<Effect>)
    requires IsAcceptedName(FileNameOf(selected))
    ensures bill.fileUrl == Some(url) && bill.fileName == Some(FileNameOf(selected)) && bill.status == Pending
    ensures |effects| == 3 && effects[0] == CreateCall(file, email)
    ensures effects[1] == UpdateCall(bill, Some(key)) && effects[2] == Navigate(BillsPath)
  {
    var form0 := new NewBill(true);
    var outcome := form0.HandleChangeFile(selected, file, email);
    form0.ResolveUpload(0, url, key);
    bill := form0.HandleSubmit(email, form);
    effects := form0.effects;
  }

  /** Selecting `doc.pdf` issues no create call and empties the input. */
  method SelectPdf(selected: string, file: FileObject, email: string)
    returns (outcome: ChangeOutcome, value: string, effects: seq<Effect>, fileName: Option<string>)
    requires selected == "doc.pdf"
    ensures outcome == Rejected && value == "" && |effects| == 0 && fileName == None
  {
    var form0 := new NewBill(true);
    assert selected == "doc" + "." + "pdf";
    AcceptsPlainSelection("doc", "pdf");
    outcome := form0.HandleChangeFile(selected, file, email);
    value, effects, fileName := form0.inputValue, form0.effects, form0.fileName;
  }

  /** Two uploads in flight: the one resolved last wins, even when it was
      started first. */
  method RacingUploads(a: string, b: string, first: FileObject, second: FileObject, email: string)
    returns (fileName: Option<string>, billId: Option<string>, fileUrl: Option<string>)
    requires a == "a.png" && b == "b.jpg"
    ensures fileName == Some(a) && billId == Some("key-a") && fileUrl == Some("url-a")
  {
    var form0 := new NewBill(true);
    assert a == "a" + "." + "png" && b == "b" + "." + "jpg";
    AcceptsPlainSelection("a", "png");
    AcceptsPlainSelection("b", "jpg");
    FileNameWithoutBackslash(a);
    var o1 := form0.HandleChangeFile(a, first, email);
    var o2 := form0.HandleChangeFile(b, second, email);
    assert o1 == Uploading(0) && o2 == Uploading(1);
    form0.ResolveUpload(1, "url-b", "key-b");
    form0.ResolveUpload(0, "url-a", "key-a");
    fileName, billId, fileUrl := form0.fileName, form0.billId, form0.fileUrl;
  }

  /** Without a store, submitting still navigates once, issues no update, and
      the bill carries the still-null attachment. */
  method SubmitWithoutStore(email: string, form: FormValues)
    returns (bill: Bill, effects: seq<Effect>)
    ensures |effects| == 1 && effects[0] == Navigate(BillsPath)
    ensures bill.fileUrl == None && bill.fileName == None && bill.email == email
  {
    var form0 := new NewBill(false);
    bill := form0.HandleSubmit(email, form);
    effects := form0.effects;
  }

  /** A failed update adds no navigation to the one of the submit. */
  method FailedUpdate(email: string, form: FormValues) returns (effects: seq<Effect>)
    ensures NavigationCount(effects) == 1
  {
    var form0 := new NewBill(true);
    var bill := form0.HandleSubmit(email, form);
    assert NavigationCount(form0.effects) == 1;
    form0.FailUpdate(0);
    effects := form0.effects;
  }

  /** A successful update adds a second navigation. */
  method SucceededUpdate(email: string, form: FormValues) returns (effects: seq<Effect>)
    ensures NavigationCount(effects) == 2
  {
    var form0 := new NewBill(true);
    var bill := form0.HandleSubmit(email, form);
    var submitted := form0.effects;
    assert NavigationCount(submitted) == 1;
    form0.ResolveUpdate(0);
    effects := form0.effects;
    assert effects == submitted + [Navigate(BillsPath)];
    NavigationCountSnoc(submitted, Navigate(BillsPath));
  }
}
