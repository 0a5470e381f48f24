/** `validateFile` of the Flare airdrop: repeated XRP addresses are reported but stay valid. */
module FlareValidation {
  import opened Snapshot

  function Flags(lines: seq<LineItem>, checks: Checks): seq<bool>
  {
    seq(|lines|, i requires 0 <= i < |lines| => FieldErrors(lines[i], checks) == 0)
  }

  lemma FlagsAppend(lines: seq<LineItem>, item: LineItem, checks: Checks)
    ensures Flags(lines + [item], checks) == Flags(lines, checks) + [FieldErrors(item, checks) == 0]
  {
  }

  /** What has been established after the given lines. */
  ghost predicate Validated(lines: seq<LineItem>, checks: Checks, res: ValidateRes, seen: set<string>,
                            detail: map<string, seq<nat>>)
  {
    && res == Report(lines, checks, Flags(lines, checks))
    && seen == XrpAddresses(lines)
    && IndexesLines(lines, detail)
  }

  lemma ValidatedStep(lines: seq<LineItem>, checks: Checks, res: ValidateRes, seen: set<string>,
                      detail: map<string, seq<nat>>, item: LineItem)
    requires Validated(lines, checks, res, seen, detail)
    ensures var a, errors := item.xrpAddress, FieldErrors(item, checks);
            Validated(lines + [item], checks,
                      Extend(res, item, errors + (if a in seen then 1 else 0), errors == 0),
                      seen + {a},
                      detail[a := (if a in seen then detail[a] else []) + [|lines|]])
  {
    FlagsAppend(lines, item, checks);
    ReportStep(lines, checks, Flags(lines, checks), item, FieldErrors(item, checks) == 0);
    AddressesOfMore(lines, item);
    IndexStep(lines, detail, item);
  }

  /** One round of the loop. */
  method ValidateLine(lineItem: LineItem, lineIndex: nat, checks: Checks, res0: ValidateRes, seen0: set<string>,
                      detail0: map<string, seq<nat>>)
      returns (res: ValidateRes, seen: set<string>, detail: map<string, seq<nat>>)
    requires lineItem.xrpAddress in seen0 ==> lineItem.xrpAddress in detail0
    ensures var a, errors := lineItem.xrpAddress, FieldErrors(lineItem, checks);
            && res == Extend(res0, lineItem, errors + (if a in seen0 then 1 else 0), errors == 0)
            && seen == seen0 + {a}
            && detail == detail0[a := (if a in seen0 then detail0[a] else []) + [lineIndex]]
  {
    var isValid, isValidXRP, isValidFLR, lineErrors := CheckFields(lineItem, checks);
    seen, detail := seen0, detail0;
    if lineItem.xrpAddress in seen {
      detail := detail[lineItem.xrpAddress := detail[lineItem.xrpAddress] + [lineIndex]];
      lineErrors := lineErrors + 1;
    }
    if lineItem.xrpAddress !in seen {
      seen := seen + {lineItem.xrpAddress};
      detail := detail[lineItem.xrpAddress := [] + [lineIndex]];
    }
    assert seen == seen0 + {lineItem.xrpAddress};
    res := Tally(res0, lineItem, res0.lineErrors + lineErrors, isValid, isValidXRP, isValidFLR);
  }

  /** `detail` is the dictionary the duplicate messages are printed from. */
  method ValidateFile(parsedFile: seq<LineItem>, checks: Checks)
      returns (res: ValidateRes, detail: map<string, seq<nat>>)
    ensures res == Report(parsedFile, checks, Flags(parsedFile, checks))
    ensures IndexesLines(parsedFile, detail)
  {
    res, detail := ValidateRes([], 0, 0, 0, 0, 0, 0, 0), map[];
    var seen: set<string> := {};
    for lineIndex: nat := 0 to |parsedFile|
      invariant Validated(parsedFile[..lineIndex], checks, res, seen, detail)
    {
      assert parsedFile[..lineIndex + 1] == parsedFile[..lineIndex] + [parsedFile[lineIndex]];
      ValidatedStep(parsedFile[..lineIndex], checks, res, seen, detail, parsedFile[lineIndex]);
      res, seen, detail := ValidateLine(parsedFile[lineIndex], lineIndex, checks, res, seen, detail);
    }
    assert parsedFile[..|parsedFile|] == parsedFile;
  }

  /** Exactly the lines with two valid addresses and two digit texts are valid. */
  lemma ValidIff(lines: seq<LineItem>, checks: Checks, i: nat)
    requires i < |lines|
    ensures Flags(lines, checks)[i] <==>
            && checks.isXrpAddress(lines[i].xrpAddress) && checks.isFlareAddress(lines[i].flareAddress)
            && DigitText(lines[i].xrpBalance) && DigitText(lines[i].flareBalance)
  {
    ErrorsAreFailedChecks(lines[i], checks);
  }
}
