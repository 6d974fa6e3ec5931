/**
 * The FileUpload widget's selection list and upload bookkeeping: which chosen
 * files are admitted, how the list is edited, when the buttons are enabled, how
 * upload progress is reported and what an upload's completion does to the state.
 * Browser facts (is this IE11, the event type, the XHR status) are parameters.
 */
module FileUpload {
  import opened Common

  /** A chosen file, as far as the widget looks at it: `file.name`, `file.type`, `file.size`. */
  datatype File = File(name: string, mimeType: string, size: nat)

  /**
   * The props the logic reads. A missing `fileLimit` or `maxFileSize` (null,
   * undefined, 0) is 0.
   */
  datatype Props = Props(
    disabled: bool,
    multiple: bool,
    customUpload: bool,
    fileLimit: int,
    maxFileSize: int)

  // ---------------------------------------------------------------------------
  // Decimal text of a size, as JavaScript prints a non-negative integer

  predicate IsDigit(c: char) {
    '0' <= c <= '9'
  }

  predicate AllDigits(s: string) {
    forall i :: 0 <= i < |s| ==> IsDigit(s[i])
  }

  function DigitChar(d: nat): (c: char)
    requires d < 10
    ensures IsDigit(c) && (c as int) - ('0' as int) == d
  {
    (('0' as int) + d) as char
  }

  /** `String(n)` for a non-negative integer: its decimal digits, without leading zeros. */
  function Decimal(n: nat): (r: string)
    ensures |r| >= 1 && AllDigits(r)
    ensures |r| > 1 ==> r[0] != '0'
    decreases n
  {
    if n < 10 then [DigitChar(n)] else Decimal(n / 10) + [DigitChar(n % 10)]
  }

  /** The number a string of decimal digits denotes. */
  function DigitsValue(s: string): nat
    requires AllDigits(s)
  {
    if s == [] then 0
    else 10 * DigitsValue(s[..|s| - 1]) + ((s[|s| - 1] as int) - ('0' as int))
  }

  /** Reading the decimal text back gives the number. */
  lemma {:induction false} DecimalRoundTrip(n: nat)
    ensures DigitsValue(Decimal(n)) == n
    decreases n
  {
    if n >= 10 {
      var d := Decimal(n);
      DecimalRoundTrip(n / 10);
      assert d[..|d| - 1] == Decimal(n / 10);
    }
  }

  /** Distinct sizes print differently. */
  lemma DecimalInjective(m: nat, n: nat)
    requires Decimal(m) == Decimal(n)
    ensures m == n
  {
    DecimalRoundTrip(m);
    DecimalRoundTrip(n);
  }

  // ---------------------------------------------------------------------------
  // Deduplication and validation

  /** `file.name + file.type + file.size`: the text `isFileSelected` compares. */
  function Key(f: File): (r: string)
    ensures |r| > |f.name| + |f.mimeType|
    ensures r[..|f.name|] == f.name && r[|f.name|..|f.name| + |f.mimeType|] == f.mimeType
    ensures AllDigits(r[|f.name| + |f.mimeType|..])
  {
    f.name + f.mimeType + Decimal(f.size)
  }

  /** `isFileSelected`: some listed file has the same key. */
  predicate AlreadySelected(files: seq<File>, f: File)
    ensures f in files ==> AlreadySelected(files, f)
  {
    exists j :: 0 <= j < |files| && Key(files[j]) == Key(f)
  }

  /** Two files with the same name and type have the same key only when they are the same file. */
  lemma KeyDeterminesSize(f: File, g: File)
    requires f.name == g.name && f.mimeType == g.mimeType
    requires Key(f) == Key(g)
    ensures f == g
  {
    var n := |f.name| + |f.mimeType|;
    assert Key(f)[n..] == Decimal(f.size);
    assert Key(g)[n..] == Decimal(g.size);
    DecimalInjective(f.size, g.size);
  }

  /**
   * The key is a plain concatenation, so two different files can share it:
   * "a.txt" of 12 bytes and "a.txt1" of 2 bytes (both of unknown type) are
   * treated as the same selection.
   */
  lemma KeyCollision()
    ensures File("a.txt", "", 12) != File("a.txt1", "", 2)
    ensures Key(File("a.txt", "", 12)) == Key(File("a.txt1", "", 2))
    ensures AlreadySelected([File("a.txt", "", 12)], File("a.txt1", "", 2))
  {
    assert Decimal(1) == "1" && Decimal(2) == "2";
    assert Decimal(12) == "12";
    assert Key(File("a.txt", "", 12)) == "a.txt12";
    assert Key(File("a.txt1", "", 2)) == "a.txt12";
    assert [File("a.txt", "", 12)][0] == File("a.txt", "", 12);
  }

  /** `validate`: a file is rejected exactly when a size limit is set and the file exceeds it. */
  function Validate(maxFileSize: int, f: File): (ok: bool)
    ensures !ok <==> maxFileSize != 0 && f.size > maxFileSize
    ensures f.size == maxFileSize ==> ok
  {
    !(maxFileSize != 0 && f.size > maxFileSize)
  }

  /** The files of a selection that `onFileSelect` appends, judged against the list from before it. */
  function Accepted(current: seq<File>, selected: seq<File>, maxFileSize: int): (r: seq<File>)
    ensures |r| <= |selected|
    ensures forall k :: 0 <= k < |r| ==> !AlreadySelected(current, r[k]) && Validate(maxFileSize, r[k])
  {
    Filter(selected, f => !AlreadySelected(current, f) && Validate(maxFileSize, f))
  }

  /** The files of a selection reported to `onValidationFail`: new ones that fail `validate`. */
  function Rejected(current: seq<File>, selected: seq<File>, maxFileSize: int): (r: seq<File>)
    ensures forall k :: 0 <= k < |r| ==> !AlreadySelected(current, r[k]) && !Validate(maxFileSize, r[k])
  {
    Filter(selected, f => !AlreadySelected(current, f) && !Validate(maxFileSize, f))
  }

  /**
   * Every file of a selection ends up in exactly one class: already listed,
   * rejected by the size check, or accepted.
   */
  lemma SelectionClassifies(current: seq<File>, selected: seq<File>, maxFileSize: int, x: File)
    requires x in selected
    ensures AlreadySelected(current, x) ==> x !in Accepted(current, selected, maxFileSize) && x !in Rejected(current, selected, maxFileSize)
    ensures !AlreadySelected(current, x) ==>
      (x in Accepted(current, selected, maxFileSize) <==> Validate(maxFileSize, x)) &&
      (x in Rejected(current, selected, maxFileSize) <==> !Validate(maxFileSize, x))
  {
    FilterMember(selected, f => !AlreadySelected(current, f) && Validate(maxFileSize, f), x);
    FilterMember(selected, f => !AlreadySelected(current, f) && !Validate(maxFileSize, f), x);
  }

  /**
   * Acceptance is decided file by file against the old list: the accepted
   * files of a selection are those of its parts, in selection order.
   */
  lemma AcceptedConcat(current: seq<File>, a: seq<File>, b: seq<File>, maxFileSize: int)
    ensures Accepted(current, a + b, maxFileSize) == Accepted(current, a, maxFileSize) + Accepted(current, b, maxFileSize)
    ensures Rejected(current, a + b, maxFileSize) == Rejected(current, a, maxFileSize) + Rejected(current, b, maxFileSize)
  {
    FilterConcat(a, b, f => !AlreadySelected(current, f) && Validate(maxFileSize, f));
    FilterConcat(a, b, f => !AlreadySelected(current, f) && !Validate(maxFileSize, f));
  }

  /** A selection of one file: it is accepted, rejected, or neither because it is already listed. */
  lemma SelectOne(current: seq<File>, f: File, maxFileSize: int)
    ensures Accepted(current, [f], maxFileSize) ==
      if !AlreadySelected(current, f) && Validate(maxFileSize, f) then [f] else []
    ensures Rejected(current, [f], maxFileSize) ==
      if !AlreadySelected(current, f) && !Validate(maxFileSize, f) then [f] else []
  {
    assert [f][1..] == [];
  }

  /** One more file of a selection judged: the classes grow by that file's verdict alone. */
  lemma SelectStep(current: seq<File>, selected: seq<File>, i: nat, maxFileSize: int)
    requires i < |selected|
    ensures Accepted(current, selected[..i + 1], maxFileSize) == Accepted(current, selected[..i], maxFileSize) +
      if !AlreadySelected(current, selected[i]) && Validate(maxFileSize, selected[i]) then [selected[i]] else []
    ensures Rejected(current, selected[..i + 1], maxFileSize) == Rejected(current, selected[..i], maxFileSize) +
      if !AlreadySelected(current, selected[i]) && !Validate(maxFileSize, selected[i]) then [selected[i]] else []
  {
    assert selected[..i + 1] == selected[..i] + [selected[i]];
    AcceptedConcat(current, selected[..i], [selected[i]], maxFileSize);
    SelectOne(current, selected[i], maxFileSize);
  }

  /** Identical new files in one selection are all admitted: the check is against the old list only. */
  lemma BatchDuplicatesAdmitted(current: seq<File>, f: File, maxFileSize: int)
    requires !AlreadySelected(current, f) && Validate(maxFileSize, f)
    ensures Accepted(current, [f, f], maxFileSize) == [f, f]
  {
    FilterKeepsAll([f, f], g => !AlreadySelected(current, g) && Validate(maxFileSize, g));
  }

  /** `isImage`: the MIME type starts with "image/". */
  function IsImage(mimeType: string): (r: bool)
    ensures r <==> exists rest :: mimeType == "image/" + rest
  {
    if |mimeType| >= 6 && mimeType[..6] == "image/" then
      assert mimeType == "image/" + mimeType[6..];
      true
    else
      assert forall rest :: ("image/" + rest)[..6] == "image/";
      false
  }

  // ---------------------------------------------------------------------------
  // Buttons, labels and drops

  /**
   * `chooseDisabled` as evidently intended: disabled, or a file limit is set and
   * the listed plus already uploaded files have reached it.
   */
  function ChooseDisabled(p: Props, listed: nat, uploaded: nat): (r: bool)
    ensures r <==> p.disabled || (p.fileLimit != 0 && p.fileLimit <= listed + uploaded)
    ensures !r && p.fileLimit > 0 ==> listed + uploaded < p.fileLimit
  {
    p.disabled || (p.fileLimit != 0 && p.fileLimit <= listed + uploaded)
  }

  /** `uploadDisabled`: disabled, or nothing to upload. */
  function UploadDisabled(p: Props, files: seq<File>): (r: bool)
    ensures r <==> p.disabled || files == []
  {
    p.disabled || |files| == 0
  }

  /** `cancelDisabled`: disabled, or nothing to cancel. */
  function CancelDisabled(p: Props, files: seq<File>): (r: bool)
    ensures r <==> p.disabled || files == []
  {
    p.disabled || |files| == 0
  }

  /**
   * `chooseButtonLabel`, `uploadButtonLabel`, `cancelButtonLabel`: the label
   * prop, else the options' label, else the locale's default ("" is missing).
   */
  function ButtonLabel(given: string, optionsLabel: string, localeDefault: string): (r: string)
    ensures given != "" ==> r == given
    ensures given == "" && optionsLabel != "" ==> r == optionsLabel
    ensures r == given || r == optionsLabel || r == localeDefault
    ensures r == "" <==> given == "" && optionsLabel == "" && localeDefault == ""
  {
    if given != "" then given
    else if optionsLabel != "" then optionsLabel
    else localeDefault
  }

  /** `onDrop`'s rule: an enabled widget takes a drop when `multiple` is set or nothing was dropped. */
  predicate DropAllowed(p: Props, dropped: nat)
    ensures DropAllowed(p, dropped) ==> !p.disabled
    ensures DropAllowed(p, dropped) && dropped > 0 ==> p.multiple
    ensures !p.disabled && (p.multiple || dropped == 0) ==> DropAllowed(p, dropped)
  {
    !p.disabled && (p.multiple || dropped == 0)
  }

  // ---------------------------------------------------------------------------
  // The IE11 duplicate change event

  /** A non-drop selection in IE11 while the flag is set is the echo of clearing the input. */
  predicate IgnoresSelection(flag: bool, isDrop: bool, isIE11: bool)
    ensures IgnoresSelection(flag, isDrop, isIE11) ==> flag
    ensures isDrop || !isIE11 ==> !IgnoresSelection(flag, isDrop, isIE11)
  {
    !isDrop && isIE11 && flag
  }

  /**
   * The flag after a selection event: an ignored event resets it, a processed
   * non-drop event in IE11 sets it, anything else leaves it.
   */
  function FlagAfterSelection(flag: bool, isDrop: bool, isIE11: bool): (r: bool)
    ensures !isDrop && isIE11 ==> r == !flag
    ensures isDrop || !isIE11 ==> r == flag
  {
    if IgnoresSelection(flag, isDrop, isIE11) then false
    else if !isDrop && isIE11 then true
    else flag
  }

  /** Which of a series of selection events (given as "is it a drop?") are processed. */
  function SelectionRun(flag: bool, isIE11: bool, drops: seq<bool>): (processed: seq<bool>)
    ensures |processed| == |drops|
    decreases |drops|
  {
    if drops == [] then []
    else
      var next := FlagAfterSelection(flag, drops[0], isIE11);
      [!IgnoresSelection(flag, drops[0], isIE11)] + SelectionRun(next, isIE11, drops[1..])
  }

  /** In IE11, consecutive non-drop change events alternate between processed and ignored. */
  lemma {:induction false} IEChangeEventsAlternate(flag: bool, n: nat, k: nat)
    requires k < n
    ensures SelectionRun(flag, true, seq(n, _ => false))[k] == ((k % 2 == 0) != flag)
    decreases k
  {
    var drops := seq(n, _ => false);
    if k > 0 {
      assert drops[1..] == seq(n - 1, _ => false);
      IEChangeEventsAlternate(!flag, n - 1, k - 1);
    }
  }

  /** Outside IE11 no selection is ever ignored. */
  lemma {:induction false} OutsideIENothingIgnored(flag: bool, drops: seq<bool>, k: nat)
    requires k < |drops|
    ensures SelectionRun(flag, false, drops)[k]
  {
    if k > 0 {
      OutsideIENothingIgnored(flag, drops[1..], k - 1);
    }
  }

  /** A drop is never ignored, whatever the flag. */
  lemma {:induction false} DropsNeverIgnored(flag: bool, isIE11: bool, drops: seq<bool>, k: nat)
    requires k < |drops| && drops[k]
    ensures SelectionRun(flag, isIE11, drops)[k]
    decreases k
  {
    if k > 0 {
      DropsNeverIgnored(FlagAfterSelection(flag, drops[0], isIE11), isIE11, drops[1..], k - 1);
    }
  }

  // ---------------------------------------------------------------------------
  // Upload progress and completion

  /** `Math.round(loaded * 100 / total)`, rounding halves up. */
  function ProgressPercent(loaded: int, total: int): (r: int)
    requires total > 0
    ensures 2 * r * total - total <= 200 * loaded < 2 * r * total + total
  {
    var q := (200 * loaded + total) / (2 * total);
    assert 200 * loaded + total == q * (2 * total) + (200 * loaded + total) % (2 * total);
    q
  }

  /** With a positive factor `b`, the sign of `a * b` is the sign of `a`. */
  lemma SignOfFactor(a: int, b: int)
    requires b > 0
    ensures a * b > 0 ==> a > 0
    ensures a * b <= 0 ==> a <= 0
  {
    if a > 0 {
      assert a * b == (a - 1) * b + b;
      SignOfFactor(a - 1, b);
    }
  }

  /** A progress event within the total reports a percentage from 0 to 100, and 100 at the end. */
  lemma ProgressInRange(loaded: int, total: int)
    requires total > 0 && 0 <= loaded <= total
    ensures 0 <= ProgressPercent(loaded, total) <= 100
    ensures loaded == total ==> ProgressPercent(loaded, total) == 100
  {
    var r := ProgressPercent(loaded, total);
    assert (2 * r + 1) * total == 2 * r * total + total;
    SignOfFactor(2 * r + 1, total);
    assert (2 * r - 201) * total == 2 * r * total - total - 200 * total;
    SignOfFactor(2 * r - 201, total);
    if loaded == total {
      assert (2 * r - 199) * total == 2 * r * total + total - 200 * total;
      SignOfFactor(2 * r - 199, total);
    }
  }

  /** More bytes sent never lowers the reported percentage. */
  lemma ProgressMonotone(loaded1: int, loaded2: int, total: int)
    requires total > 0 && loaded1 <= loaded2
    ensures ProgressPercent(loaded1, total) <= ProgressPercent(loaded2, total)
  {
    var r1 := ProgressPercent(loaded1, total);
    var r2 := ProgressPercent(loaded2, total);
    var d := r1 - r2 - 1;
    assert 2 * (d * total) == (2 * r1 * total - total) - (2 * r2 * total + total);
    SignOfFactor(d, total);
  }

  /** An XHR status that counts as success. */
  predicate IsSuccess(status: int)
    ensures IsSuccess(status) <==> status / 100 == 2
  {
    200 <= status < 300
  }

  /** The part of the widget's state an upload touches. */
  datatype Snapshot = Snapshot(files: seq<File>, progress: int, uploadedFileCount: nat)

  /** What an upload reports: `onUpload` or `onError` with the files sent, or a thrown error. */
  datatype Outcome = Uploaded(sent: seq<File>) | Failed(sent: seq<File>) | Threw

  /**
   * The XHR `readyState` 4 transition: progress back to 0 and the list cleared
   * whatever the status; success is a 2xx status and only success counts the
   * files sent as uploaded, and only when a file limit is set.
   */
  function Completion(p: Props, s: Snapshot, sent: seq<File>, status: int): (r: (Snapshot, Outcome))
    ensures r.0.files == [] && r.0.progress == 0
    ensures r.1.Uploaded? <==> IsSuccess(status)
    ensures r.1 == Uploaded(sent) || r.1 == Failed(sent)
    ensures r.0.uploadedFileCount ==
      s.uploadedFileCount + (if IsSuccess(status) && p.fileLimit != 0 then |sent| else 0)
  {
    if IsSuccess(status) then
      var count := if p.fileLimit != 0 then s.uploadedFileCount + |sent| else s.uploadedFileCount;
      (Snapshot([], 0, count), Uploaded(sent))
    else
      (Snapshot([], 0, s.uploadedFileCount), Failed(sent))
  }

  /**
   * A completed upload leaves nothing to upload or cancel; when the list sent is
   * the list shown, a success moves its files from "listed" to "uploaded", so the
   * file-limit state of the choose button is the same as before, and a failure
   * only frees slots.
   */
  lemma CompletionAccounting(p: Props, s: Snapshot, status: int)
    requires p.fileLimit != 0
    ensures UploadDisabled(p, Completion(p, s, s.files, status).0.files)
    ensures CancelDisabled(p, Completion(p, s, s.files, status).0.files)
    ensures IsSuccess(status) ==>
      ChooseDisabled(p, 0, Completion(p, s, s.files, status).0.uploadedFileCount) ==
      ChooseDisabled(p, |s.files|, s.uploadedFileCount)
    ensures !IsSuccess(status) && ChooseDisabled(p, 0, Completion(p, s, s.files, status).0.uploadedFileCount) ==>
      ChooseDisabled(p, |s.files|, s.uploadedFileCount)
  {
  }

  /**
   * `upload` with `customUpload`, as evidently intended: the counter takes the
   * listed files when a file limit is set, and the list is handed to `uploadHandler`.
   */
  function CustomUploadStart(p: Props, s: Snapshot): (r: Snapshot)
    ensures r.files == s.files && r.progress == s.progress
    ensures p.fileLimit != 0 ==> r.uploadedFileCount == s.uploadedFileCount + |s.files|
    ensures p.fileLimit == 0 ==> r.uploadedFileCount == s.uploadedFileCount
  {
    if p.fileLimit != 0 then s.(uploadedFileCount := s.uploadedFileCount + |s.files|) else s
  }

  /**
   * A custom upload followed by the handler's `clear` keeps the file-limit
   * accounting: the files move from "listed" to "uploaded".
   */
  lemma CustomUploadThenClear(p: Props, s: Snapshot)
    requires p.fileLimit != 0
    ensures ChooseDisabled(p, 0, CustomUploadStart(p, s).uploadedFileCount) ==
      ChooseDisabled(p, |s.files|, s.uploadedFileCount)
  {
  }

  // ---------------------------------------------------------------------------
  // The source as written, where it uses the `uploadedFileCount` ref as a number

  /**
   * `ToNumber` of a string, for strings of decimal digits; any other character
   * makes the result NaN (None). This is all the comparison below depends on.
   */
  function NumberValue(s: string): (r: Option<nat>)
    ensures r.Some? ==> AllDigits(s)
  {
    if s != [] && AllDigits(s) then Some(DigitsValue(s)) else None
  }

  /**
   * Line 30 as written: `files.length + uploadedFileCount` adds a ref object to a
   * number, which yields the string "<n>[object Object]", and `fileLimit <=` that
   * string compares against NaN, which is false.
   */
  function ChooseDisabledAsWritten(p: Props, listed: nat): (r: bool)
    ensures p.disabled ==> r
    ensures r ==> p.disabled || p.fileLimit != 0
  {
    var sum := Decimal(listed) + "[object Object]";
    p.disabled || (p.fileLimit != 0 &&
      match NumberValue(sum)
      case None => false
      case Some(v) => p.fileLimit <= v)
  }

  /** As written, the file limit never disables the choose button. */
  lemma ChooseDisabledAsWrittenIgnoresLimit(p: Props, listed: nat)
    ensures ChooseDisabledAsWritten(p, listed) == p.disabled
  {
    var sum := Decimal(listed) + "[object Object]";
    assert sum[|sum| - 1] == ']';
    assert !AllDigits(sum);
  }

  /** With a limit of one file and one file listed, the intended rule disables choosing; the code does not. */
  lemma ChooseDisabledCounterexample()
    ensures !ChooseDisabledAsWritten(Props(false, false, false, 1, 0), 1)
    ensures ChooseDisabled(Props(false, false, false, 1, 0), 1, 0)
  {
    ChooseDisabledAsWrittenIgnoresLimit(Props(false, false, false, 1, 0), 1);
  }

  /**
   * Line 173 as written: `uploadedFileCount += files.length` assigns to a `const`
   * and throws a TypeError before `uploadHandler` is called.
   */
  function CustomUploadAsWritten(p: Props, s: Snapshot): (r: Option<Snapshot>)
    ensures p.fileLimit != 0 ==> r.None?
    ensures p.fileLimit == 0 ==> r == Some(CustomUploadStart(p, s))
  {
    if p.fileLimit != 0 then None else Some(s)
  }

  /**
   * Line 220 as written: on a 2xx status with a file limit set, the same
   * assignment throws after `setProgress(0)`, so neither `onUpload` nor `clear` runs.
   */
  function CompletionAsWritten(p: Props, s: Snapshot, sent: seq<File>, status: int): (r: (Snapshot, Outcome))
    ensures r.0.progress == 0
    ensures IsSuccess(status) && p.fileLimit != 0 ==>
      r.1 == Threw && r.0.files == s.files && r.0.uploadedFileCount == s.uploadedFileCount
    ensures !(IsSuccess(status) && p.fileLimit != 0) ==> r == Completion(p, s, sent, status)
  {
    if IsSuccess(status) && p.fileLimit != 0 then (s.(progress := 0), Threw)
    else Completion(p, s, sent, status)
  }

  /** A successful upload of one file under a limit leaves the file listed as written; the intended transition clears it. */
  lemma CompletionAsWrittenKeepsFiles(f: File)
    ensures CompletionAsWritten(Props(false, false, false, 1, 0), Snapshot([f], 50, 0), [f], 200) ==
      (Snapshot([f], 0, 0), Threw)
    ensures Completion(Props(false, false, false, 1, 0), Snapshot([f], 50, 0), [f], 200) ==
      (Snapshot([], 0, 1), Uploaded([f]))
  {
  }

  // ---------------------------------------------------------------------------
  // The component's state

  class Uploader {
    var props: Props
    var files: seq<File>
    var progress: int
    var uploadedFileCount: nat
    var duplicateIEEvent: bool

    constructor (props: Props)
      ensures this.props == props
      ensures files == [] && progress == 0 && uploadedFileCount == 0 && !duplicateIEEvent
    {
      this.props := props;
      files := [];
      progress := 0;
      uploadedFileCount := 0;
      duplicateIEEvent := false;
    }

    function State(): Snapshot
      reads this
    {
      Snapshot(files, progress, uploadedFileCount)
    }

    /** `hasFiles`. */
    predicate HasFiles()
      reads this
      ensures HasFiles() <==> files != []
    {
      |files| > 0
    }

    /** `isFileSelected`: scan the list and stop at the first file with the same key. */
    method IsFileSelected(f: File) returns (r: bool)
      ensures r <==> AlreadySelected(files, f)
    {
      var key := Key(f);
      for i := 0 to |files|
        invariant forall j :: 0 <= j < i ==> Key(files[j]) != key
      {
        if Key(files[i]) == key {
          return true;
        }
      }
      return false;
    }

    /**
     * `onFileSelect`: unless this is IE11's echo event, append the new files of
     * the selection that pass `validate`, in order, and report those that fail it.
     */
    method OnFileSelect(isDrop: bool, isIE11: bool, selected: seq<File>) returns (ignored: bool, rejected: seq<File>)
      modifies this`files, this`duplicateIEEvent
      ensures ignored == IgnoresSelection(old(duplicateIEEvent), isDrop, isIE11)
      ensures duplicateIEEvent == FlagAfterSelection(old(duplicateIEEvent), isDrop, isIE11)
      ensures ignored ==> files == old(files) && rejected == []
      ensures !ignored ==> files == old(files) + Accepted(old(files), selected, props.maxFileSize)
      ensures !ignored ==> rejected == Rejected(old(files), selected, props.maxFileSize)
    {
      ignored := IgnoresSelection(duplicateIEEvent, isDrop, isIE11);
      if ignored {
        duplicateIEEvent := false;
        rejected := [];
        return;
      }
      var before := files;
      var maxSize := props.maxFileSize;
      var current := before;
      rejected := [];
      for i := 0 to |selected|
        modifies {}
        invariant current == before + Accepted(before, selected[..i], maxSize)
        invariant rejected == Rejected(before, selected[..i], maxSize)
      {
        var file := selected[i];
        SelectStep(before, selected, i, maxSize);
        var listed := IsFileSelected(file);
        if !listed {
          if Validate(maxSize, file) {
            current := current + [file];
          } else {
            rejected := rejected + [file];
          }
        }
      }
      assert selected[..|selected|] == selected;
      files := current;
      if !isDrop && isIE11 {
        duplicateIEEvent := true;
      }
    }

    /** `onDrop`: select the dropped files when `DropAllowed` says so. */
    method OnDrop(isIE11: bool, dropped: seq<File>) returns (processed: bool, rejected: seq<File>)
      modifies this`files, this`duplicateIEEvent
      ensures processed == DropAllowed(props, |dropped|)
      ensures duplicateIEEvent == old(duplicateIEEvent)
      ensures !processed ==> files == old(files) && rejected == []
      ensures processed ==> files == old(files) + Accepted(old(files), dropped, props.maxFileSize)
      ensures processed ==> rejected == Rejected(old(files), dropped, props.maxFileSize)
    {
      processed := DropAllowed(props, |dropped|);
      rejected := [];
      if processed {
        var ignored;
        ignored, rejected := OnFileSelect(true, isIE11, dropped);
      }
    }

    /** `remove`: splice entry `index` out of a copy of the list and report the removed file. */
    method Remove(index: nat) returns (removed: Option<File>)
      modifies this`files
      ensures files == RemoveAt(old(files), index)
      ensures index < |old(files)| ==> removed == Some(old(files)[index])
      ensures index >= |old(files)| ==> removed.None?
    {
      removed := if index < |files| then Some(files[index]) else None;
      files := RemoveAt(files, index);
    }

    /** `clear`: empty the list. */
    method Clear()
      modifies this`files
      ensures files == []
    {
      files := [];
    }

    /**
     * `upload`: the files handed to `uploadHandler` or appended to the form data.
     * A custom upload counts them as uploaded when a file limit is set.
     */
    method Upload() returns (sent: seq<File>)
      modifies this`uploadedFileCount
      ensures sent == files
      ensures props.customUpload ==> State() == CustomUploadStart(props, old(State()))
      ensures !props.customUpload ==> uploadedFileCount == old(uploadedFileCount)
    {
      sent := files;
      if props.customUpload && props.fileLimit != 0 {
        uploadedFileCount := uploadedFileCount + |files|;
      }
    }

    /** The XHR `progress` listener: only events with a computable length update the percentage. */
    method OnUploadProgress(lengthComputable: bool, loaded: int, total: int)
      requires lengthComputable ==> total > 0
      modifies this`progress
      ensures lengthComputable ==> progress == ProgressPercent(loaded, total)
      ensures !lengthComputable ==> progress == old(progress)
    {
      if lengthComputable {
        progress := ProgressPercent(loaded, total);
      }
    }

    /** `onreadystatechange` for the request that sent `sent`: only `readyState` 4 completes it. */
    method OnReadyStateChange(sent: seq<File>, readyState: int, status: int) returns (outcome: Option<Outcome>)
      modifies this`files, this`progress, this`uploadedFileCount
      ensures readyState != 4 ==> outcome.None? && State() == old(State())
      ensures readyState == 4 ==> outcome == Some(Completion(props, old(State()), sent, status).1)
      ensures readyState == 4 ==> State() == Completion(props, old(State()), sent, status).0
    {
      outcome := None;
      if readyState == 4 {
        progress := 0;
        var success := IsSuccess(status);
        if success {
          if props.fileLimit != 0 {
            uploadedFileCount := uploadedFileCount + |sent|;
          }
          outcome := Some(Uploaded(sent));
        } else {
          outcome := Some(Failed(sent));
        }
        Clear();
      }
    }

    /** `onSimpleUploaderClick`: upload when files are listed, otherwise open the file chooser (None). */
    method OnSimpleUploaderClick() returns (sent: Option<seq<File>>)
      modifies this`uploadedFileCount
      ensures !old(HasFiles()) ==> sent.None? && uploadedFileCount == old(uploadedFileCount)
      ensures old(HasFiles()) ==> sent == Some(files) && files != []
      ensures old(HasFiles()) && props.customUpload ==> State() == CustomUploadStart(props, old(State()))
      ensures old(HasFiles()) && !props.customUpload ==> uploadedFileCount == old(uploadedFileCount)
    {
      if HasFiles() {
        var batch := Upload();
        sent := Some(batch);
      } else {
        sent := None;
      }
    }
  }
}
