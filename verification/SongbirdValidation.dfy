/** `validateFile` of the Songbird airdrop: a repeated XRP address makes its line invalid. */
module SongbirdValidation {
  import opened Snapshot

  function Flags(lines: seq<LineItem>, checks: Checks): seq<bool>
  {
    seq(|lines|, i requires 0 <= i < |lines| =>
      FieldErrors(lines[i], checks) == 0 && lines[i].xrpAddress !in XrpAddresses(lines[..i]))
  }

  lemma FlagsAppend(lines: seq<LineItem>, item: LineItem, checks: Checks)
    ensures Flags(lines + [item], checks)
         == Flags(lines, checks) + [FieldErrors(item, checks) == 0 && item.xrpAddress !in XrpAddresses(lines)]
  {
    var more := lines + [item];
    forall i | 0 <= i <= |lines| ensures more[..i] == if i < |lines| then lines[..i] else lines {}
  }

  /** `seenXRPAddressesDetail`: the first line of every address. */
  ghost predicate FirstLines(lines: seq<LineItem>, detail: map<string, nat>)
  {
    && detail.Keys == XrpAddresses(lines)
    && forall a :: a in detail ==>
         && detail[a] < |lines| && lines[detail[a]].xrpAddress == a
         && forall j :: 0 <= j < detail[a] ==> lines[j].xrpAddress != a
  }

  ghost predicate Validated(lines: seq<LineItem>, checks: Checks, res: ValidateRes, detail: map<string, nat>)
  {
    && res == Report(lines, checks, Flags(lines, checks))
    && FirstLines(lines, detail)
  }

  lemma FirstLinesStep(lines: seq<LineItem>, detail: map<string, nat>, item: LineItem)
    requires FirstLines(lines, detail)
    ensures var a := item.xrpAddress;
            FirstLines(lines + [item], if a in detail then detail else detail[a := |lines|])
  {
    AddressesOfMore(lines, item);
    var a := item.xrpAddress;
    if a !in detail {
      forall j | 0 <= j < |lines| ensures lines[j].xrpAddress != a {
        assert lines[j].xrpAddress in XrpAddresses(lines);
      }
    }
  }

  lemma ValidatedStep(lines: seq<LineItem>, checks: Checks, res: ValidateRes, detail: map<string, nat>, item: LineItem)
    requires Validated(lines, checks, res, detail)
    ensures var a, errors := item.xrpAddress, FieldErrors(item, checks);
            Validated(lines + [item], checks,
                      Extend(res, item, errors + (if a in detail then 1 else 0), errors == 0 && a !in detail),
                      if a in detail then detail else detail[a := |lines|])
  {
    ReportedStep(lines, checks, item);
    FirstLinesStep(lines, detail, item);
  }

  lemma ReportedStep(lines: seq<LineItem>, checks: Checks, item: LineItem)
    ensures var seen, errors := item.xrpAddress in XrpAddresses(lines), FieldErrors(item, checks);
            Report(lines + [item], checks, Flags(lines + [item], checks))
            == Extend(Report(lines, checks, Flags(lines, checks)), item, errors + (if seen then 1 else 0),
                      errors == 0 && !seen)
  {
    FlagsAppend(lines, item, checks);
    ReportStep(lines, checks, Flags(lines, checks), item,
               FieldErrors(item, checks) == 0 && item.xrpAddress !in XrpAddresses(lines));
  }

  /** One round of the loop. */
  method ValidateLine(lineItem: LineItem, lineIndex: nat, checks: Checks, res0: ValidateRes, seen0: set<string>,
                      detail0: map<string, nat>)
      returns (res: ValidateRes, seen: set<string>, detail: map<string, nat>)
    requires seen0 == detail0.Keys
    ensures var a, errors := lineItem.xrpAddress, FieldErrors(lineItem, checks);
            && res == Extend(res0, lineItem, errors + (if a in detail0 then 1 else 0), errors == 0 && a !in detail0)
            && detail == if a in detail0 then detail0 else detail0[a := lineIndex]
    ensures seen == detail.Keys
  {
    var isValid, isValidXRP, isValidFLR, lineErrors := CheckFields(lineItem, checks);
    seen, detail := seen0, detail0;
    if lineItem.xrpAddress in seen {
      isValid := false;
      lineErrors := lineErrors + 1;
    }
    if lineItem.xrpAddress !in seen {
      seen := seen + {lineItem.xrpAddress};
      detail := detail[lineItem.xrpAddress := lineIndex];
    }
    res := Tally(res0, lineItem, res0.lineErrors + lineErrors, isValid, isValidXRP, isValidFLR);
  }

  /** `detail` is the dictionary the duplicate messages are printed from. */
  method ValidateFile(parsedFile: seq<LineItem>, checks: Checks)
      returns (res: ValidateRes, detail: map<string, nat>)
    ensures res == Report(parsedFile, checks, Flags(parsedFile, checks))
    ensures FirstLines(parsedFile, detail)
  {
    res, detail := ValidateRes([], 0, 0, 0, 0, 0, 0, 0), map[];
    var seen: set<string> := {};
    for lineIndex: nat := 0 to |parsedFile|
      invariant seen == detail.Keys
      invariant Validated(parsedFile[..lineIndex], checks, res, detail)
    {
      assert parsedFile[..lineIndex + 1] == parsedFile[..lineIndex] + [parsedFile[lineIndex]];
      ValidatedStep(parsedFile[..lineIndex], checks, res, detail, parsedFile[lineIndex]);
      res, seen, detail := ValidateLine(parsedFile[lineIndex], lineIndex, checks, res, seen, detail);
    }
    assert parsedFile[..|parsedFile|] == parsedFile;
  }

  /**
   Exactly the lines with two valid addresses and two digit texts are valid, of every XRP address
   only the first line, even when that line is itself rejected.
   */
  lemma ValidLinesAreFirst(lines: seq<LineItem>, checks: Checks, i: nat)
    requires i < |lines|
    ensures Flags(lines, checks)[i] <==>
            && checks.isXrpAddress(lines[i].xrpAddress) && checks.isFlareAddress(lines[i].flareAddress)
            && DigitText(lines[i].xrpBalance) && DigitText(lines[i].flareBalance)
            && forall j :: 0 <= j < i ==> lines[j].xrpAddress != lines[i].xrpAddress
  {
    ErrorsAreFailedChecks(lines[i], checks);
  }

  /** So no XRP address is paid twice. */
  lemma ValidLinesDistinct(lines: seq<LineItem>, checks: Checks, i: nat, j: nat)
    requires i < j < |lines| && Flags(lines, checks)[i] && Flags(lines, checks)[j]
    ensures lines[i].xrpAddress != lines[j].xrpAddress
  {
  }
}
