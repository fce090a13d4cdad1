/** The rules every validator set passes before it is stored, and what they
    buy the signature parser. */
module ValidatorSet {
  import opened Bytes
  import opened Wrappers
  import opened SignatureParser

  const MAX_VALIDATORS := 16

  datatype SetError =
    | EmptyValidatorSet | TooManyValidators | ZeroThreshold | ThresholdExceedsValidatorCount
    | InvalidValidatorKey | DuplicateValidator

  /** Every rule at once. */
  predicate Valid(validators: seq<Hash32>, threshold: byte) {
    && 1 <= threshold <= |validators| <= MAX_VALIDATORS
    && ZERO32 !in validators && Distinct(validators)
  }

  /** The first rule broken, in the order clients rely on. */
  function FirstFault(validators: seq<Hash32>, threshold: byte): Option<SetError> {
    if validators == [] then Some(EmptyValidatorSet)
    else if |validators| > MAX_VALIDATORS then Some(TooManyValidators)
    else if threshold == 0 then Some(ZeroThreshold)
    else if threshold > |validators| then Some(ThresholdExceedsValidatorCount)
    else if ZERO32 in validators then Some(InvalidValidatorKey)
    else if !Distinct(validators) then Some(DuplicateValidator)
    else None
  }

  /** The set breaks this rule, whatever else it breaks. */
  predicate Breaks(validators: seq<Hash32>, threshold: byte, e: SetError) {
    match e
    case EmptyValidatorSet => |validators| == 0
    case TooManyValidators => |validators| > MAX_VALIDATORS
    case ZeroThreshold => threshold == 0
    case ThresholdExceedsValidatorCount => threshold > |validators|
    case InvalidValidatorKey => exists k :: 0 <= k < |validators| && validators[k] == ZERO32
    case DuplicateValidator => exists j, k :: 0 <= j < k < |validators| && validators[j] == validators[k]
  }

  /** The documented order of the rules. */
  const RULES: seq<SetError> := [
    EmptyValidatorSet, TooManyValidators, ZeroThreshold, ThresholdExceedsValidatorCount, InvalidValidatorKey, DuplicateValidator]

  /** The fault reported is the first rule of the order that the set breaks. */
  lemma FirstFaultExactly(validators: seq<Hash32>, threshold: byte, k: nat)
    requires k < |RULES|
    ensures FirstFault(validators, threshold) == Some(RULES[k]) <==>
              Breaks(validators, threshold, RULES[k]) && forall j :: 0 <= j < k ==> !Breaks(validators, threshold, RULES[j])
    ensures FirstFault(validators, threshold) == None <==> forall j :: 0 <= j < |RULES| ==> !Breaks(validators, threshold, RULES[j])
  {
    assert RULES[0] == EmptyValidatorSet && RULES[1] == TooManyValidators && RULES[2] == ZeroThreshold;
    assert RULES[3] == ThresholdExceedsValidatorCount && RULES[4] == InvalidValidatorKey && RULES[5] == DuplicateValidator;
    assert ZERO32 in validators <==> Breaks(validators, threshold, InvalidValidatorKey);
    assert !Distinct(validators) <==> Breaks(validators, threshold, DuplicateValidator);
  }

  method ValidateValidatorSet(validators: seq<Hash32>, threshold: byte) returns (fault: Option<SetError>)
    ensures fault == FirstFault(validators, threshold)
    ensures fault == None <==> Valid(validators, threshold)
  {
    if |validators| == 0 { return Some(EmptyValidatorSet); }
    if |validators| > MAX_VALIDATORS { return Some(TooManyValidators); }
    if threshold < 1 { return Some(ZeroThreshold); }
    if threshold > |validators| { return Some(ThresholdExceedsValidatorCount); }
    for i := 0 to |validators|
      invariant ZERO32 !in validators[..i]
    {
      if validators[i] == ZERO32 { return Some(InvalidValidatorKey); }
    }
    assert validators[..|validators|] == validators;
    for i := 0 to |validators|
      invariant forall a, b :: 0 <= a < i && a < b < |validators| ==> validators[a] != validators[b]
    {
      for j := i + 1 to |validators|
        invariant forall b :: i < b < j ==> validators[i] != validators[b]
      {
        if validators[i] == validators[j] { return Some(DuplicateValidator); }
      }
    }
    fault := None;
  }

  /** Any non-empty group of distinct members of a validated set, signing one
      message of at most 65535 bytes, is counted in full. */
  lemma ValidatedSubsetCounts(
      data: seq<byte>, keys: seq<Hash32>, message: seq<byte>, validators: seq<Hash32>, threshold: byte)
    requires Valid(validators, threshold) && IsInstruction(data, keys, message)
    requires keys != [] && Distinct(keys) && forall k :: 0 <= k < |keys| ==> keys[k] in validators
    ensures |keys| <= |validators|
    ensures Parse(data, message, validators) == Ok(|keys|) <==> |message| <= 0xFFFF
  {
    hide Parse, IsInstruction;
    DistinctWithin(keys, validators);
    BuiltParses(data, keys, message, validators);
  }

  /** So the threshold of a validated set is within reach. */
  lemma ThresholdIsReachable(data: seq<byte>, message: seq<byte>, validators: seq<Hash32>, threshold: byte)
    requires Valid(validators, threshold) && IsInstruction(data, validators, message) && |message| <= 0xFFFF
    ensures var r := Parse(data, message, validators); r.Ok? && r.value >= threshold
  {
    hide Parse, IsInstruction;
    ValidatedSubsetCounts(data, validators, message, validators, threshold);
  }

  lemma {:induction false} DistinctWithin(keys: seq<Hash32>, all: seq<Hash32>)
    requires Distinct(keys) && forall k :: 0 <= k < |keys| ==> keys[k] in all
    ensures |keys| <= |all|
  {
    if keys == [] {
    } else {
      var last := |keys| - 1;
      var at :| 0 <= at < |all| && all[at] == keys[last];
      var rest := all[..at] + all[at + 1..];
      forall k | 0 <= k < last ensures keys[..last][k] in rest {
        var j :| 0 <= j < |all| && all[j] == keys[k];
        assert rest[if j < at then j else j - 1] == keys[k];
      }
      DistinctWithin(keys[..last], rest);
    }
  }
}
