/**
 * The new-bill form controller of src/containers/NewBill.js: the checks on
 * the selected proof file, and the controller object whose held fields
 * (`fileUrl`, `fileName`, `billId`) the change and submit handlers update.
 *
 * The store's promises become explicit events: every store call is recorded
 * in `effects`, and a call still in flight stays in `uploads` or `updates`
 * until `ResolveUpload`/`FailUpload` or `ResolveUpdate`/`FailUpdate` settles
 * it, in any order.
 */
module NewBillForm {
  import opened Wrappers
  import opened JsStrings
  import opened Bills

  /** The allowed extensions, compared exactly (so case-sensitively). */
  const FileFormats: seq<string> := ["jpg", "jpeg", "png"]

  /** The file name of an input value: the last piece of its split on `\`. */
  function FileNameOf(value: string): (name: string)
    ensures '\\' !in name
  {
    var filePath := Split(value, '\\');
    filePath[|filePath| - 1]
  }

  /** The extension of a file name: the last piece of its split on `.`. */
  function ExtensionOf(name: string): (ext: string)
    ensures '.' !in ext
  {
    Last(Split(name, '.'))
  }

  /** `fileFormats.includes(fileExtension)`. */
  predicate IsAcceptedName(name: string) {
    ExtensionOf(name) in FileFormats
  }

  /** The extension is the one and only text after the last dot, so a name
      is accepted exactly when an allowed extension is the text after its
      last dot. */
  lemma ExtensionCharacterised(name: string)
    ensures forall ext :: IsTextAfterLast(name, '.', ext) <==> ext == ExtensionOf(name)
    ensures IsAcceptedName(name) <==> exists ext :: IsTextAfterLast(name, '.', ext) && ext in FileFormats
  {
    ExtensionIsTextAfterLastDot(name);
    forall ext | IsTextAfterLast(name, '.', ext)
      ensures ext == ExtensionOf(name)
    {
      TextAfterLastUnique(name, '.', ext, ExtensionOf(name));
    }
  }

  /** The file name is the text after the last backslash. */
  lemma FileNameIsTextAfterLastBackslash(value: string)
    ensures IsTextAfterLast(value, '\\', FileNameOf(value))
  {
    assert FileNameOf(value) == Last(Split(value, '\\'));
    LastSplitIsTextAfterLast(value, '\\');
  }

  /** Without a backslash the file name is the whole value; `/` is no separator. */
  lemma FileNameWithoutBackslash(value: string)
    requires '\\' !in value
    ensures FileNameOf(value) == value
  {
    LastSplitWithoutSeparator(value, '\\');
  }

  /** The extension is the text after the last dot. */
  lemma ExtensionIsTextAfterLastDot(name: string)
    ensures IsTextAfterLast(name, '.', ExtensionOf(name))
  {
    assert ExtensionOf(name) == Last(Split(name, '.'));
    LastSplitIsTextAfterLast(name, '.');
  }

  /** A name without a dot is its own extension. */
  lemma ExtensionWithoutDot(name: string)
    requires '.' !in name
    ensures ExtensionOf(name) == name
  {
    LastSplitWithoutSeparator(name, '.');
  }

  /** The extension of `base.ext`, for an `ext` without a dot, is `ext`. */
  lemma ExtensionOfDotted(base: string, ext: string)
    requires '.' !in ext
    ensures ExtensionOf(base + "." + ext) == ext
  {
    var name := base + "." + ext;
    ExtensionIsTextAfterLastDot(name);
    assert name[|name| - |ext|..] == ext;
    assert name[|name| - |ext| - 1] == '.';
    TextAfterLastUnique(name, '.', ExtensionOf(name), ext);
  }

  /** A name is accepted exactly when what follows its last dot is one of the
      allowed extensions. */
  lemma AcceptedIffAllowedExtension(base: string, ext: string)
    requires '.' !in ext
    ensures IsAcceptedName(base + "." + ext) <==> ext == "jpg" || ext == "jpeg" || ext == "png"
  {
    ExtensionOfDotted(base, ext);
  }

  /** A selection `base.ext` without a path is accepted exactly when `ext`
      is one of the allowed extensions. */
  lemma AcceptsPlainSelection(base: string, ext: string)
    requires '\\' !in base + "." + ext && '.' !in ext
    ensures IsAcceptedName(FileNameOf(base + "." + ext)) <==> ext in FileFormats
  {
    FileNameWithoutBackslash(base + "." + ext);
    ExtensionOfDotted(base, ext);
  }

  /** The allowed extensions are the only accepted names that have no dot. */
  lemma AcceptedWithoutDot(name: string)
    requires '.' !in name
    ensures IsAcceptedName(name) <==> name == "jpg" || name == "jpeg" || name == "png"
  {
    ExtensionWithoutDot(name);
  }

  /** A selected `image.png` is accepted. */
  lemma AcceptsImagePng(value: string)
    requires value == "image.png"
    ensures IsAcceptedName(FileNameOf(value))
  {
    FileNameWithoutBackslash(value);
    assert "image" + "." + "png" == value;
    ExtensionOfDotted("image", "png");
  }

  /** `file.txt` is rejected, and so is `X.PNG`: the check is case-sensitive. */
  lemma RejectsOtherExtensions(txt: string, upper: string)
    requires txt == "file.txt" && upper == "X.PNG"
    ensures !IsAcceptedName(FileNameOf(txt))
    ensures !IsAcceptedName(FileNameOf(upper))
  {
    assert txt == "file" + "." + "txt";
    AcceptsPlainSelection("file", "txt");
    assert upper == "X" + "." + "PNG";
    AcceptsPlainSelection("X", "PNG");
  }

  /** A browser's fake Windows path yields its last segment. */
  lemma FileNameOfFakePath()
    ensures FileNameOf("C:\\fakepath\\photo.jpeg") == "photo.jpeg"
  {
    var parts := ["C:", "fakepath", "photo.jpeg"];
    assert Join(parts, '\\') == "C:\\fakepath\\photo.jpeg";
    JoinSplit(parts, '\\');
  }

  /** The path given to the navigator; `ROUTES_PATH['Bills']` is the only
      route this controller navigates to. */
  datatype Route = BillsPath

  /** The selected `File` object. The controller only passes it on to the
      store, so any value stands for it; a string is used here. */
  type FileObject = string

  /** What the controller does to the outside: store calls and navigations. */
  datatype Effect =
    | CreateCall(file: FileObject, email: string)
    | UpdateCall(data: Bill, selector: Option<string>)
    | Navigate(route: Route)

  function NavigationCount(effects: seq<Effect>): nat
    decreases |effects|
  {
    if effects == [] then 0
    else NavigationCount(effects[..|effects| - 1]) + if effects[|effects| - 1].Navigate? then 1 else 0
  }

  lemma NavigationCountSnoc(a: seq<Effect>, e: Effect)
    ensures NavigationCount(a + [e]) == NavigationCount(a) + if e.Navigate? then 1 else 0
  {
    assert (a + [e])[..|a|] == a;
  }

  lemma {:induction false} NavigationCountAppend(a: seq<Effect>, b: seq<Effect>)
    ensures NavigationCount(a + b) == NavigationCount(a) + NavigationCount(b)
    decreases |b|
  {
    if b == [] {
      assert a + b == a;
    } else {
      assert (a + b)[..|a + b| - 1] == a + b[..|b| - 1];
      NavigationCountAppend(a, b[..|b| - 1]);
    }
  }

  /** How a change of the file input ends: rejected, an upload started as the
      store call at index `call` of the effects, or, with no store configured,
      the `TypeError` of `this.store.bills()`. */
  datatype ChangeOutcome = Rejected | Uploading(call: nat) | StoreMissing

  class NewBill {
    const hasStore: bool
    var fileUrl: Option<string>
    var fileName: Option<string>
    var billId: Option<string>
    /** The value of the file input. */
    var inputValue: string
    var effects: seq<Effect>
    /** The create calls in flight, with the file name their continuation holds. */
    var uploads: map<nat, string>
    /** The update calls in flight. */
    var updates: set<nat>

    /** The held attachment fields are set together, only to an accepted name;
        every call in flight is a recorded store call of its kind. */
    ghost predicate Valid()
      reads this
    {
      && (fileUrl.Some? <==> fileName.Some?)
      && (fileName.Some? <==> billId.Some?)
      && (fileName.Some? ==> IsAcceptedName(fileName.value))
      && (forall k | k in uploads :: k < |effects| && effects[k].CreateCall? && IsAcceptedName(uploads[k]))
      && (forall k | k in updates :: k < |effects| && effects[k].UpdateCall?)
    }

    constructor (hasStore: bool)
      ensures Valid() && this.hasStore == hasStore
      ensures fileUrl == None && fileName == None && billId == None
      ensures inputValue == "" && effects == [] && uploads == map[] && updates == {}
    {
      this.hasStore := hasStore;
      fileUrl, fileName, billId := None, None, None;
      inputValue := "";
      effects, uploads, updates := [], map[], {};
    }

    /** The change handler, run after the user has set the input to `selected`. */
    method HandleChangeFile(selected: string, file: FileObject, email: string) returns (outcome: ChangeOutcome)
      requires Valid()
      modifies this
      ensures Valid()
      ensures fileUrl == old(fileUrl) && fileName == old(fileName) && billId == old(billId)
      ensures updates == old(updates)
      ensures !IsAcceptedName(FileNameOf(selected)) ==>
        outcome == Rejected && inputValue == "" && effects == old(effects) && uploads == old(uploads)
      ensures IsAcceptedName(FileNameOf(selected)) && hasStore ==>
        && outcome == Uploading(|old(effects)|) && inputValue == selected
        && effects == old(effects) + [CreateCall(file, email)]
        && uploads == old(uploads)[|old(effects)| := FileNameOf(selected)]
      ensures IsAcceptedName(FileNameOf(selected)) && !hasStore ==>
        outcome == StoreMissing && inputValue == selected && effects == old(effects) && uploads == old(uploads)
    {
      inputValue := selected;
      var filePath := Split(selected, '\\');
      var name := filePath[|filePath| - 1];
      var extension := Last(Split(name, '.'));
      if extension in FileFormats {
        if hasStore {
          outcome := Uploading(|effects|);
          uploads := uploads[|effects| := name];
          effects := effects + [CreateCall(file, email)];
        } else {
          outcome := StoreMissing;
        }
      } else {
        outcome := Rejected;
        inputValue := "";
      }
    }

    /** The create call `call` succeeds with `url` and `key`: the three held
        fields are set together, whatever an earlier upload had set. */
    method ResolveUpload(call: nat, url: string, key: string)
      requires Valid() && call in uploads
      modifies this
      ensures Valid()
      ensures billId == Some(key) && fileUrl == Some(url) && fileName == Some(old(uploads)[call])
      ensures uploads == old(uploads) - {call}
      ensures effects == old(effects) && updates == old(updates) && inputValue == old(inputValue)
    {
      billId := Some(key);
      fileUrl := Some(url);
      fileName := Some(uploads[call]);
      uploads := uploads - {call};
    }

    /** The create call `call` fails: it is only logged. */
    method FailUpload(call: nat)
      requires Valid() && call in uploads
      modifies this
      ensures Valid()
      ensures fileUrl == old(fileUrl) && fileName == old(fileName) && billId == old(billId)
      ensures uploads == old(uploads) - {call}
      ensures effects == old(effects) && updates == old(updates) && inputValue == old(inputValue)
    {
      uploads := uploads - {call};
    }

    /** The submit handler: assemble the bill, hand it to `UpdateBill`, then
        navigate to the bills list without waiting. */
    method HandleSubmit(email: string, form: FormValues) returns (bill: Bill)
      requires Valid()
      modifies this
      ensures Valid()
      ensures bill == AssembleBill(email, form, old(fileUrl), old(fileName))
      ensures fileUrl == old(fileUrl) && fileName == old(fileName) && billId == old(billId)
      ensures inputValue == old(inputValue) && uploads == old(uploads)
      ensures hasStore ==>
        && effects == old(effects) + [UpdateCall(bill, old(billId)), Navigate(BillsPath)]
        && updates == old(updates) + {|old(effects)|}
      ensures !hasStore ==> effects == old(effects) + [Navigate(BillsPath)] && updates == old(updates)
      ensures NavigationCount(effects) == NavigationCount(old(effects)) + 1
    {
      bill := AssembleBill(email, form, fileUrl, fileName);
      ghost var before := effects;
      UpdateBill(bill);
      ghost var updated := effects;
      effects := effects + [Navigate(BillsPath)];
      NavigationCountSnoc(updated, Navigate(BillsPath));
      if hasStore {
        assert updated == before + [UpdateCall(bill, billId)];
        NavigationCountSnoc(before, UpdateCall(bill, billId));
        assert effects == before + [UpdateCall(bill, billId), Navigate(BillsPath)];
      } else {
        assert updated == before;
      }
    }

    /** With a store, one update call selecting the held `billId`; without
        one, nothing. */
    method UpdateBill(bill: Bill)
      requires Valid()
      modifies this
      ensures Valid()
      ensures fileUrl == old(fileUrl) && fileName == old(fileName) && billId == old(billId)
      ensures inputValue == old(inputValue) && uploads == old(uploads)
      ensures hasStore ==>
        effects == old(effects) + [UpdateCall(bill, billId)] && updates == old(updates) + {|old(effects)|}
      ensures !hasStore ==> effects == old(effects) && updates == old(updates)
    {
      if hasStore {
        updates := updates + {|effects|};
        effects := effects + [UpdateCall(bill, billId)];
      }
    }

    /** The update call `call` succeeds: one more navigation to the bills list. */
    method ResolveUpdate(call: nat)
      requires Valid() && call in updates
      modifies this
      ensures Valid()
      ensures fileUrl == old(fileUrl) && fileName == old(fileName) && billId == old(billId)
      ensures inputValue == old(inputValue) && uploads == old(uploads)
      ensures effects == old(effects) + [Navigate(BillsPath)] && updates == old(updates) - {call}
    {
      effects := effects + [Navigate(BillsPath)];
      updates := updates - {call};
    }

    /** The update call `call` fails: it is only logged. */
    method FailUpdate(call: nat)
      requires Valid() && call in updates
      modifies this
      ensures Valid()
      ensures fileUrl == old(fileUrl) && fileName == old(fileName) && billId == old(billId)
      ensures inputValue == old(inputValue) && uploads == old(uploads)
      ensures effects == old(effects) && updates == old(updates) - {call}
    {
      updates := updates - {call};
    }
  }
}
