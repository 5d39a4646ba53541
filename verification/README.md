# Verification of the Phantasma C++ SDK's numbers, wire format and fee planner

This project models five parts of the Phantasma Carbon C++ SDK in Dafny and proves what they are for.
`dafny verify dfyconfig.toml` checks all of it.

* **The big integer** (`Positional`, `Bits`, `Limbs`, `Shifts`, `BigInteger`, `LongDivision`, `Division`,
  `SignedBytes`, `SignedCodec`, `Roots`, `Modular`, `Base58`): sign and 32-bit limbs, with results stated by
  value against the mathematical integers. `Valid()` says that the sign tells zero from non-zero and that
  a non-zero vector is trimmed; `Canonical()` adds that zero is the single limb 0.
* **The wire format** (`Codecs`, `WireFormat`, `IntX`, `Messages`, `CallCodec`, `MessageCodecs`, `BodyCodecs`,
  `Envelope`, `GasConfigWire`): a format is a writer and a fallible reader with three laws, namely that a written
  value comes back whatever follows it, that a reader takes only bytes it was given, and that later bytes
  do not change its answer. The laws compose, and every strict prefix of an image is refused because of
  them. `Views`, `IntXViews`, `PayloadViews`, `TxViews` and `EnvelopeViews` are the cursor readers and buffer
  writers themselves, each proved to agree with its format on every input. `Layouts` and `NumberLayouts` have the bytes:
  every message, envelope and number, type by type, in literal bytes and fields.
* **The dynamic values of the VM** (`FaithfulCodecs`, `VmNames`, `VmValues`, `VmTables`, `VmSchemas`, `VmFlat`,
  `VmStructs`, `VmCodec`, `VmLaws`, `VmRepairs`, `VmReturns`, `VmViews`, `VmReaders`, `VmWriters`): recursive values, structs laid out by a
  schema, sorted fields, lookup and merge; `VmLayouts` has the bytes of all 24 types, of structs and of schemas. The formats are built by recursion on a bound on nesting, which
  is shown not to matter: no input nests deeper than its length.
* **The fee planner** (`Words64`, `FeeModel`, `FeeEstimator`, `FeeSettlement`, `FeeExactness`, `TokenCalls`, `TokenMetadata`,
  `FeePlan`, `FeePlanning`, `FeeBatches`, `FeeDescriptions`, `FeeReadings`, `FeeMovements`): exact charges as unbounded numbers, the saturating and wrapping
  64-bit arithmetic that narrows them, settlement under both gas models, and the claim "exact" that a plan
  makes from two probes of seven facts. `FeePrices`, `FeeQuotes`, `FeeCalls` and `FeePlanLaws` say the same in the
  fields of the configuration and of the message alone: the price of each kind and what it does not depend on,
  the settlement, what each message and each call is described as, the plan, and quotes in numbers.
* **The arena** (`Arena`) and **amount texts** (`AmountText`).

## What the proofs found

* `FeePlan::exact` does not hold for every message. In a batch that mixes an NFT burn with other operations
  a meta-id row of the burn deletes a row that other calls pay for, so raising that fact can lower the
  bill: `FeeMovements.ExactMisses` gives such a message, planned as exact and billed 25 units more under
  facts between the probes. `FeeReadings.ExactDecided` has the exact condition: two more readings of the
  same message have to quote as planned, one with every fact cheapest but that row as stated, one with
  that row alone denied. `FeePlanning.ExactIsPrediction` gives a cheaper test that is enough, a covered
  batch, and `FeeExactness.NetMonotoneExactly` shows that covered is exactly what keeps net storage from
  falling.
* For the same reason a plan that states nothing is not always an upper bound, although the comment on the
  options promises it (`FeePlan.h:94-95`): `FeeMovements.DefaultPlanExceeded` has a message billed 25 units
  more than its default plan. `FeeReadings.UpperBoundExactly` shows that one further reading decides it, the
  stated facts without the burned instances' meta id.
* `1 + instanceCount` of a returned asset is computed in 32 bits (`FeeEstimator.h:458-461`), so a count of
  2^32 - 1 deletes no row; `FeeExactness.ReturnedAssetNets` has the exact condition.
* `DivideAndModulus`, called directly with a negative dividend of at least as many limbs as the divisor,
  adds the divisor to the remainder: -7 by 5 gives -1 with remainder 3 (`Division.DirectDivisionOfSeven`).
  Its contract says that these are exactly the inputs whose results do not divide, for divisors that are not
  negative or have one limb (a longer negative divisor fails too, and is taken here only for a shorter
  dividend). With fewer limbs the dividend itself is the remainder, and `operator/` and `operator%` pass magnitudes and are right.
* `ModInverse` refuses the residue one, which is its own inverse. `ModPow` with exponent 0 answers 1, for
  modulus 1 too, and that is the one result outside the modulus.
* Base58 encodes an all-zero input with one `1` too many, so exactly the non-empty all-zero inputs do not
  come back.
* `SingleDigitDivMod` leaves a quotient without limbs when one limb is divided by a larger one, and a left
  shift of zero by 32 or more leaves more than one zero limb: both are zero by value, not by `==`.
* The comment above the trailing 0xFF guard promises it for every negative number; -257 is written as FF FE
  without it (`SignedCodec.GuardMissingAt257`), and `SignedCodec.GuardMissing` says for which numbers the
  guard is missing. The model follows the code.
* The strict `intx` reader accepts a set reserved bit in front of eight bytes and untrimmed words;
  `IntX.CanonicalExactly` says which images are the writer's own.
* The schema-driven VM writer answers true when a field is present with another type, although a zero is
  written (`VmLaws.AnswerMissesTypes`), when extra fields of a schema that forbids them were dropped, and
  when a field of a nested struct was missing or of another type (`VmReturns.AnswerMissesNested`).
  `VmReturns.ComesBackRepaired` says what is read back of any struct, and `VmReturns.ComesBackExactly` when
  that is the struct itself: at no depth was a field missing, of another type or forbidden. Usable, in
  those theorems, are counts below 2^31, known types, names that sort strictly, sorted fields under a schema,
  and arrays of structs that carry a schema with fields or have no elements and no schema; they say
  nothing of whether a field is there or has its type.
* Arrays of structs without elements lose their schema, and without schema fields the reader takes elements
  for the schema, whatever they hold (`VmLaws.StructArrayExactly`). A schema without fields that allows
  extras writes a count the reader leaves unread (`VmLaws.NoFieldsExactly`).
* The text "." is an amount of zero (`AmountText.PointIsZero`).

## Model

| member | source | states |
|---|---|---|
| `Limbs.Add` | include/Numerics/BigInteger.h:553-576 | the sum vector stands for X + Y, for all limb vectors |
| `Limbs.Subtract` | include/Numerics/BigInteger.h:578-600 | for ordered operands the borrow dies out and the vector stands for X - Y |
| `Limbs.Multiply` | include/Numerics/BigInteger.h:602-630 | the product vector stands for X * Y although the accumulator is a 64-bit word |
| `Limbs.MultiplyRow` | include/Numerics/BigInteger.h:610-626 | one row adds x * Y at its limb position to the running product and nothing else |
| `Limbs.ProductFits` | include/Numerics/BigInteger.h:615-623 | product, old limb and carry together never leave 64 bits |
| `Shifts.ShiftLeft` | include/Numerics/BigInteger.h:1104-1135 | the new buffer stands for the old number times 2^k, stays trimmed, and is one limb longer only where the top limb overflows |
| `Shifts.ShiftRight` | include/Numerics/BigInteger.h:1035-1080 | the new buffer stands for the old number divided by 2^k, rounded down |
| `Shifts.RightResult` | include/Numerics/BigInteger.h:1041-1066 | dropping whole limbs, shifting each limb and leaving out a top limb that vanishes is one floor division |
| `BigIntegers.BigInteger.FromWords` | include/Numerics/BigInteger.h:307-333 | any limb vector becomes a canonical number of the same value with leading zero limbs dropped |
| `BigIntegers.BigInteger.FromInt64` | include/Numerics/BigInteger.h:286-304 | the number constructed has exactly the 64-bit value, the least one included |
| `BigIntegers.BigInteger.Trim` | include/Numerics/BigInteger.h:51-57 | the value stays and the representation becomes trimmed, a zero losing its sign |
| `BigIntegers.BigInteger.LogicalCompare` | include/Numerics/BigInteger.h:1188-1235 | answers the comparison of the two values; only zeros of different lengths are compared by length |
| `BigIntegers.BigInteger.Less` | include/Numerics/BigInteger.h:1238-1241 | on canonical numbers, the order of the integers; two zeros of different lengths are the only other case |
| `BigIntegers.BigInteger.Plus` | include/Numerics/BigInteger.h:633-682 | value is a + b for every combination of signs, and the result is trimmed |
| `BigIntegers.BigInteger.Minus` | include/Numerics/BigInteger.h:688-733 | value is a - b for every combination of signs, and the result is trimmed |
| `BigIntegers.BigInteger.Times` | include/Numerics/BigInteger.h:739-747 | value is a * b, and the result is trimmed |
| `BigIntegers.BigInteger.Negate` | include/Numerics/BigInteger.h:1160-1165 | value is -a and the limbs are those of a |
| `BigIntegers.BigInteger.GetBitLength` | include/Numerics/BigInteger.h:1523-1533 | the position of the highest set bit of the magnitude, 0 for zero |
| `BigIntegers.BigInteger.ShiftedLeft` | include/Numerics/BigInteger.h:1083-1092 | value is a * 2^k, and for a negative count the right shift by -k |
| `BigIntegers.BigInteger.ShiftedRight` | include/Numerics/BigInteger.h:959-997 | value is floor(a / 2^k) for negative numbers too |
| `BigIntegers.BigInteger.ShiftLeftAssign` | include/Numerics/BigInteger.h:1093-1101 | in place, the value becomes a * 2^k |
| `BigIntegers.BigInteger.ShiftRightAssign` | include/Numerics/BigInteger.h:998-1032 | in place, the value becomes floor(a / 2^k) |
| `BigIntegers.FloorOfNegative` | include/Numerics/BigInteger.h:970-979 | rounding the magnitude up by 2^k - 1 before shifting is rounding a negative number down |
| `LongDivision.SingleDigitDivMod` | include/Numerics/BigInteger.h:814-861 | quotient and remainder by one limb satisfy q*d + r = n with 0 <= r < d; a one-limb dividend below the divisor leaves an empty-limb quotient |
| `LongDivision.EstimateDigit` | include/Numerics/BigInteger.h:893-921 | the two-limb estimate after its test is never below a digit that fits and never above 2^32 + 1, without 64-bit overflow |
| `LongDivision.TooLarge` | include/Numerics/BigInteger.h:905-917 | the two-digit test fires only when the estimate exceeds every digit that fits |
| `LongDivision.CorrectDigit` | include/Numerics/BigInteger.h:921-934 | the correction loop ends, leaving the true quotient digit and the remainder window; under a negative divisor it never corrects and the multiple stays added |
| `LongDivision.CountShift` | include/Numerics/BigInteger.h:868-880 | the shift count that brings the divisor's top bit to the top of its limb |
| `LongDivision.OuterStep` | include/Numerics/BigInteger.h:889-940 | writing back one window keeps numerator = quotient so far * divisor + remainder, with the remainder's upper part below the divisor |
| `LongDivision.OuterDigit` | include/Numerics/BigInteger.h:889-934 | one pass yields a digit and a new window that divide the old window |
| `LongDivision.MultiDigitDivMod` | include/Numerics/BigInteger.h:864-950 | for a trimmed divisor of two or more limbs and a numerator at least as long: q*den + rem = num and 0 <= rem < den |
| `Division.DivideAndModulus` | include/Numerics/BigInteger.h:780-810 | refuses exactly a zero divisor; the quotient is rounded towards zero, and the parts add up with a remainder below the divisor if and only if the dividend is not negative or has fewer limbs than the divisor |
| `Division.DirectDivisionOfNegatives` | include/Numerics/BigInteger.h:795-808 | for a negative dividend of at least as many limbs as the divisor, where the code adds the divisor to the remainder, the parts add up to a + b and never divide |
| `Division.DirectDivisionOfSeven` | include/Numerics/BigInteger.h:780-810 | the direct entry point run on -7 and 5 answers -1 with remainder 3 |
| `Division.Quotient` | include/Numerics/BigInteger.h:753-760 | a / b rounds towards zero, for every a and every b other than zero, on the short, single-limb and multi-limb paths |
| `Division.Remainder` | include/Numerics/BigInteger.h:766-774 | a % b is zero or has the sign of a, for every a and every b other than zero |
| `Division.DivisionLaw` | include/Numerics/BigInteger.h:753-774 | a = (a/b)*b + a%b, |a%b| < |b|, and the remainder is zero or has the dividend's sign |
| `Division.DivisionUnique` | include/Numerics/BigInteger.h:753-774 | no other pair of integers satisfies that law |
| `Division.SignedResults` | include/Numerics/BigInteger.h:753-774 | unsigned quotient and remainder carry over to signed operands |
| `SignedBytes.FromMagnitude` | include/Numerics/BigInteger.h:233-257 | the byte constructor's value is the little-endian magnitude with its sign, whatever the length modulo four |
| `SignedBytes.ToUnsignedByteArray` | include/Numerics/BigInteger.h:1605-1670 | the bytes read back to the magnitude and end in no zero byte |
| `SignedCodec.FromSignedBytes` | include/Numerics/BigInteger.h:181-204 | the constructor's value is the two's-complement reading of every byte string |
| `SignedCodec.ToSignedByteArray` | include/Numerics/BigInteger.h:1680-1757 | the bytes are the two's-complement form of the value, of exactly the length the tail-guard rules give |
| `SignedCodec.GuardMissing` | include/Numerics/BigInteger.h:1733-1746 | the signed form of a negative number ends in 0xFF, except exactly where its magnitude is above the least number of its length and at most half of that length's range |
| `SignedCodec.GuardMissingAt257` | include/Numerics/BigInteger.h:1733-1746 | -257 is written as FF FE |
| `SignedCodec.ApplyTwosComplement` | include/Numerics/BigInteger.h:1760-1776 | read as a magnitude, the result is 256^n minus the magnitude of the n bytes given |
| `SignedCodec.RoundTrip` | include/Numerics/BigInteger.h:1680-1776 | constructing from ToSignedByteArray gives back the value of every integer |
| `SignedCodec.NoOverflow` | include/Numerics/BigInteger.h:1720-1757 | inverting and adding one never carries out of the bytes of a non-zero magnitude |
| `SignedCodec.PrepareBitwiseOperands` | include/Numerics/BigInteger.h:1261-1274 | both byte strings become equally long and keep all their two's-complement bits |
| `SignedCodec.Bitwise` | include/Numerics/BigInteger.h:1277-1333 | and, or and exclusive or agree with the operation on infinite two's-complement bits |
| `SignedCodec.BitsOfBytes` | include/Numerics/BigInteger.h:1261-1333 | the bits of a number are the bits of its signed bytes, sign-extended |
| `SignedCodec.BitsDetermine` | include/Numerics/BigInteger.h:1277-1333 | infinite bits determine the number, so the operator contract leaves one result |
| `Roots.Sqrt` | include/Numerics/BigInteger.h:1546-1594 | r*r <= n < (r+1)*(r+1) for every n >= 0; negative input is refused |
| `Roots.TrialBit` | include/Numerics/BigInteger.h:1566-1588 | keeping or dropping one trial bit halves the interval that holds the root |
| `Roots.FloorSqrtUnique` | include/Numerics/BigInteger.h:1546-1594 | only one number is the floor square root |
| `Modular.PowLoop` | include/Numerics/BigInteger.h:1408-1421 | square-and-multiply ends and its result is congruent to base^exp |
| `Modular.ModPow` | include/Numerics/BigInteger.h:1395-1422 | congruent to base^exp, with the sign of the power; the result lies within the modulus if and only if the exponent is not 0 or the modulus is above 1, and exponent 0 answers 1; a negative exponent uses the inverse; modulus < 1 is refused |
| `Modular.InversePower` | include/Numerics/BigInteger.h:1403-1404 | a power of an inverse is the inverse of the power |
| `Modular.ModInverse` | include/Numerics/BigInteger.h:1424-1479 | when it answers, the result is in [0, m) with a*r congruent to 1; it refuses exactly when there is no inverse or the residue or modulus is one |
| `Modular.EuclidStep` | include/Numerics/BigInteger.h:1441-1466 | one round keeps the remainders' common divisors and the coefficients' congruences |
| `Modular.InverseOfOneExists` | include/Numerics/BigInteger.h:1467-1470 | one has an inverse modulo every m > 1, which ModInverse refuses |
| `Base58.Encode` | include/Numerics/Base58.h:223-257 | the text spells the bytes' number in base 58, with one leading '1' per leading zero byte |
| `Base58.Decode` | include/Numerics/Base58.h:20-66 | the bytes of the spelled number with the leading ones as zero bytes; refused exactly when a character is outside the alphabet |
| `Base58.AlphabetIndexOf` | include/Numerics/Base58.h:12-18 | the position of a character in the alphabet, or -1 |
| `Base58.BytesRoundTrip` | include/Numerics/Base58.h:20-257 | what is read off the text Encode makes is the input if and only if that is empty or has a non-zero byte; an all-zero input gains a byte |
| `Base58.EncodeThenDecode` | include/Numerics/Base58.h:20-257 | running Encode and then Decode gives the bytes back if and only if they are empty or one is not zero |
| `Base58.TextRoundTrip` | include/Numerics/Base58.h:20-257 | for every text over the alphabet, encoding what it decodes to gives it back if and only if it is empty or has a character other than '1'; a text of ones gains one |
| `Base58.DecodeThenEncode` | include/Numerics/Base58.h:20-257 | running Decode and then Encode refuses exactly the texts with a foreign character and gives the others back if and only if they are empty or not all ones |
| `Words64.SaturatingAdd` | include/Carbon/FeeEstimator.h:331-334 | the sum, or 2^64 - 1 where it does not fit |
| `Words64.SaturatingMul` | include/Carbon/FeeEstimator.h:336-341 | the product, or 2^64 - 1 where it does not fit |
| `Words64.CeilDiv` | include/Carbon/FeeEstimator.h:373-376 | the quotient rounded up, without overflow |
| `Words64.WideProductIs` | include/Carbon/FeeEstimator.h:354-363 | four 32-bit products assemble the exact 128-bit product |
| `Words64.MulShiftRefines` | include/Carbon/FeeEstimator.h:346-371 | the portable 32-bit-halves branch equals min(2^64-1, floor(value*multiplier / 2^shift)) for every shift |
| `Words64.MulShiftMono` | include/Carbon/FeeEstimator.h:346-371 | scaling is monotone in the value |
| `Words64.ScalingTheTotal` | include/Carbon/FeeEstimator.h:277-281 | scaling an unsaturated total is never below the sum of the scaled charges, exceeds it by fewer units than there are charges, and equals it when the shift is 0 |
| `FeeEstimator.AddNarrow` | include/Carbon/FeeEstimator.h:742-750 | adding operations in saturating and wrapping 64-bit words is narrowing the exact sums |
| `FeeEstimator.SumRawRows` | include/Carbon/FeeEstimator.h:535-607 | the row loop adds up the storage quanta of every instance |
| `FeeEstimator.SumCanonicalRows` | include/Carbon/FeeEstimator.h:535-607 | the row loop of a canonical Phantasma mint adds up the quanta of every instance |
| `FeeEstimator.OneMoreInstance` | include/Carbon/FeeEstimator.h:476-479 | the quanta of n instances grow by those of one row set and stay below 2^26 per instance |
| `FeeEstimator.ReturnedAssets` | include/Carbon/FeeEstimator.h:442-471 | the loop over returned assets yields the narrowed exact charges, refusing exactly the lists that cannot be priced |
| `FeeEstimator.SymbolShift` | include/Carbon/FeeEstimator.h:380-403 | the halving count of a name length, or a refusal exactly where no offline price exists |
| `FeeEstimator.HalvedPrice` | include/Carbon/FeeEstimator.h:380-403 | the largest whole price whose 2^shift-fold stays within the full price |
| `FeeEstimator.HalvedOnceMore` | include/Carbon/FeeEstimator.h:380-403 | each further character halves the price once more, rounding down |
| `FeeEstimator.BuildOperationModel` | include/Carbon/FeeEstimator.h:495-675 | in 64-bit words, the narrowed charge of the operation, or the refusal; `FeePrices` says per kind what that charge is in the fields of the configuration and which inputs are refused |
| `FeeEstimator.BuildMintModel` | include/Carbon/FeeEstimator.h:520-560 | the same for mints |
| `FeeEstimator.BuildPhantasmaMintModel` | include/Carbon/FeeEstimator.h:495-560 | the same for deterministic Phantasma mints with their lookup queries |
| `FeeEstimator.BuildBurnModel` | include/Carbon/FeeEstimator.h:561-612 | the same for burns with the returned assets |
| `FeeEstimator.BuildCreationModel` | include/Carbon/FeeEstimator.h:613-650 | the same for token creations with the symbol price |
| `FeeEstimator.BuildNameModel` | include/Carbon/FeeEstimator.h:651-672 | the same for name registrations |
| `FeeEstimator.PartModel` | include/Carbon/FeeEstimator.h:679-688 | a part with instance count 0 is refused; any other has its operation's model, refused or not |
| `FeeSettlement.SettleIsPriced` | include/Carbon/FeeEstimator.h:694-740 | the saturating settlement equals the formula on unbounded charges, however far they are from saturating; `FeeQuotes.SettledV1` and `FeeQuotes.SettledV2` have it in the fields of the configuration |
| `FeeSettlement.EstimateNativeFeeBatch` | include/Carbon/FeeEstimator.h:777-802 | the parts are summed and settled once, or the message is refused; `FeeQuotes` has what a settlement says and quotes in numbers |
| `FeeSettlement.EstimateNativeFee` | include/Carbon/FeeEstimator.h:809-814 | one operation is a batch of one |
| `FeeSettlement.BatchOrder` | include/Carbon/FeeEstimator.h:777-802 | the charges of a batch depend only on the bag of its parts |
| `FeeExactness.PartMonotone` | include/Carbon/FeeEstimator.h:495-675 | a costlier reading of the facts never lowers what one operation is billed and escrowed for, and changes deleted rows only through burns |
| `FeeExactness.BatchMonotone` | include/Carbon/FeeEstimator.h:777-802 | the same for every batch |
| `FeeExactness.NetMonotoneExactly` | include/Carbon/FeeEstimator.h:605-607 | net storage grows with the facts in every reading if and only if the burns' meta-id rows are covered |
| `FeeExactness.WithoutBurnsCovered` | include/Carbon/FeeEstimator.h:605-607 | a batch without NFT burns is covered |
| `FeeExactness.BurnsAloneCovered` | include/Carbon/FeeEstimator.h:561-612 | a message of burns alone is covered, provided no returned asset is said to hold 2^32 - 1 instances |
| `FeeExactness.ReturnedAssetNets` | include/Carbon/FeeEstimator.h:440-461 | a returned asset deletes at least the rows it creates, if and only if its 32-bit count does not wrap |
| `FeeExactness.PricedMonotone` | include/Carbon/FeeEstimator.h:694-740 | settlement is monotone through scaling, saturation and floors in both gas models |
| `FeeExactness.QuoteMonotone` | include/Carbon/FeePlan.h:556-588 | costlier facts never lower bill, offer or ceiling of a covered batch |
| `FeeExactness.ProbesDecide` | include/Carbon/FeePlan.h:570-588 | if the cheapest and the costliest reading quote the same, every assignment of the seven facts between them does |
| `FeeExactness.BillMonotoneExactly` | include/Carbon/FeePlan.h:570-588 | where units are billed one to one, the bill is monotone in every reading if and only if the batch is covered |
| `FeeExactness.ExampleQuote` | include/Carbon/FeePlan.h:570-588 | a mint and a burn whose probes agree although a reading between them is billed more |
| `TokenCalls.ReadTransferFungible` | include/Carbon/FeePlan.h:30-38 | reads recipient and token from a transfer's arguments, refusing short ones |
| `TokenCalls.ReadTransferNonFungible` | include/Carbon/FeePlan.h:41-50 | reads recipient, token and instance count, an unusable count reading as 0 |
| `TokenCalls.ReadMintFungible` | include/Carbon/FeePlan.h:53-59 | reads recipient and token of a mint |
| `TokenCalls.ReadBurnFungible` | include/Carbon/FeePlan.h:62-67 | reads the token of a burn |
| `TokenCalls.ReadBurnNonFungible` | include/Carbon/FeePlan.h:70-83 | reads token and every listed instance id |
| `TokenCalls.ReadPhantasmaMintFacts` | include/Carbon/FeePlan.h:273-315 | reads the sizes of every instance and counts the distinct series, exactly as the entries hold them |
| `TokenCalls.ReadEntries` | include/Carbon/FeePlan.h:286-308 | the seen-before scan counts distinct series |
| `TokenCalls.SeriesCount` | include/Carbon/FeePlan.h:273-315 | there are at least one and at most as many series as instances |
| `FeePlan.DescribeCall` | include/Carbon/FeePlan.h:443-554 | reading a call's arguments field by field gives exactly the operation it performs, or a refusal where they are too short or a burn's assets were not read; `FeeCalls` has each operation's parameters read off the argument bytes |
| `FeePlan.ReadCreateTokenFacts` | include/Carbon/FeePlan.h:228-264 | reading the token info field by field, then looking four keys up in its metadata, gives exactly the inputs a token creation is priced by |
| `TokenMetadata.ReadTokenMeta` | include/Carbon/FeePlan.h:252-262 | reads the metadata struct off a cursor and answers which of the four keys the binary search finds |
| `TokenMetadata.WrittenKeysAreFound` | include/Carbon/FeePlan.h:252-262 | of metadata that was written from a sorted struct, the answers are whether fields are named _brn, _ip, _soi and _srt |
| `FeePlan.DescribeCalls` | include/Carbon/FeePlan.h:411-427 | the calls of a batch in order, the first burn taking the whole list of returned assets |
| `FeeDescriptions.BatchDescribed` | include/Carbon/FeePlan.h:409-427 | a batch is described exactly when each call is by itself and, where one burns, the returned assets were read; its operations are those of the calls, and the first burn alone takes the assets |
| `FeeDescriptions.MessageDescribed` | include/Carbon/FeePlan.h:332-441 | which messages are described; a batch gives one operation per call and any other message one, and no operation is priced with a fact cheaper than stated |
| `FeePlanning.AssumptionsMattered` | include/Carbon/FeePlan.h:570-588 | answers whether the second probe changed bill, offer or ceiling |
| `FeePlanning.PlanFees` | include/Carbon/FeePlan.h:599-643 | refuses or answers the settlement of the described parts under the stated facts, and says exact only when no part is a budget and the probes agree |
| `FeePlanning.PartsFit` | include/Carbon/FeePlan.h:332-441 | every described part satisfies the calculator's size conditions |
| `FeePlanning.PartsCheaper` | include/Carbon/FeePlan.h:332-441 | describing a message with cheaper facts gives the same operations with cheaper facts |
| `FeePlanning.PlanIsUpperBound` | include/Carbon/FeePlan.h:556-588 | for a covered batch whose totals do not wrap: whatever cheaper or equal facts the chain holds, the message quotes no more than planned |
| `FeePlanning.ExactIsPrediction` | include/Carbon/FeePlan.h:570-588 | when a plannable plan says exact, every assignment of the seven facts no costlier than stated quotes the planned bill, offer and ceiling |
| `FeeReadings.CheaperQuotesLess` | include/Carbon/FeePlan.h:570-588 | with the meta-id fact unchanged, cheaper facts never raise a quote, covered or not |
| `FeeReadings.ThreeReadingsDecide` | include/Carbon/FeePlan.h:556-588 | a message whose totals do not wrap quotes alike under every reading no costlier than the stated one if and only if it does under three of them |
| `FeeReadings.ExactDecided` | include/Carbon/FeePlan.h:556-643 | a plan that budgets nothing predicts the quote of every such reading if and only if it says exact and two further readings quote as planned |
| `FeeReadings.ExactWithoutRom` | include/Carbon/FeePlan.h:556-643 | where the meta id is denied, exact is true of exactly the plans that budget nothing and hold under every such reading |
| `FeeReadings.UpperBoundExactly` | include/Carbon/FeePlan.h:94-96 | where totals do not wrap, no reading no costlier than the stated one quotes more than planned if and only if the stated one without the meta id does not |
| `FeePlanning.SingleIsCovered` | include/Carbon/FeePlan.h:332-441 | every message that is not a batch is covered, provided no returned asset is said to hold 2^32 - 1 instances |
| `FeeBatches.CallsSum` | include/Carbon/FeePlan.h:411-427 | a batch charges its bare calls plus the returned assets once, whichever burn takes them |
| `FeeBatches.CallsQuoteIgnoresOrder` | include/Carbon/FeePlan.h:411-427 | the quote of a batch of calls does not depend on their order |
| `FeeBatches.QuoteIgnoresOrder` | include/Carbon/FeePlan.h:411-427 | bill, offer, ceiling and size of a Call_Multi do not depend on the order of its calls |
| `FeeBatches.PlanIgnoresOrder` | include/Carbon/FeePlan.h:599-643 | neither does whether the plan is exact |
| `FeeBatches.TakingIsBurning` | include/Carbon/FeePlan.h:443-554 | only a burn is described differently when it takes the returned assets |
| `FeeMovements.TransferCalled` | include/Carbon/FeePlan.h:443-504 | a fungible transfer carried as a Token module call is described as the native transfer |
| `FeeMovements.NftTransferCalled` | include/Carbon/FeePlan.h:443-504 | the same for an instance transfer |
| `FeeMovements.MintCalled` | include/Carbon/FeePlan.h:443-504 | the same for a fungible mint |
| `FeeMovements.BurnCalled` | include/Carbon/FeePlan.h:443-504 | the same for a fungible burn |
| `FeeMovements.NftBurnCalled` | include/Carbon/FeePlan.h:443-504 | the same for an NFT burn |
| `FeeMovements.BurnedInstances` | include/Carbon/FeePlan.h:654-695 | lists exactly the instances the message burns, or refuses |
| `FeeMovements.BurnsAgree` | include/Carbon/FeePlan.h:332-695 | the instances a caller is asked about are exactly the instances the message is priced as burning |
| `FeeMovements.ExactMisses` | include/Carbon/FeePlan.h:570-588 | a message planned as exact that is billed 25 units more under facts between the probes |
| `FeeMovements.DefaultPlanExceeded` | include/Carbon/FeePlan.h:94-96 | a message planned with every fact at its costlier default that is billed 25 units more when only the meta id turns out to be absent |
| `Codecs.PrefixRefused` | include/Carbon/DataBlockchain.h:416-671 | a faithful format refuses every strict prefix of an image |
| `Codecs.PrefixFree` | include/Carbon/DataBlockchain.h:622-671 | different values have different images and no image begins another |
| `Codecs.ChainLawful` | include/Carbon/DataBlockchain.h:449-472 | parts whose layout depends on earlier parts compose to a lawful format |
| `WireFormat.WrittenNumber` | include/Carbon/Carbon.h:56-62 | a number below 256^n comes back from its n little-endian bytes |
| `WireFormat.NumberWritten` | include/Carbon/Carbon.h:170-219 | n bytes are the little-endian form of the number they spell |
| `WireFormat.SmallStringLawful` | include/Carbon/Carbon.h:371-396 | short strings come back, take exactly their image, and only canonical images are accepted |
| `WireFormat.CountedLawful` | include/Carbon/DataVm.h:407-443 | length-prefixed bytes come back and only their own image is accepted |
| `WireFormat.ArrayLawful` | include/Carbon/DataVm.h:407-490 | an array comes back whenever the element size of the count check is a true lower bound of an element's image |
| `WireFormat.FitsInto` | include/Carbon/DataVm.h:419-422 | the count check by division is the check that all elements fit |
| `Views.ReadView.Advance` | include/Carbon/Alloc.h:491-499 | the cursor moves by exactly the count or fails for good |
| `Views.ReadView.Rewind` | include/Carbon/Alloc.h:501-507 | rewinding to a mark restores the bytes left at that mark |
| `Views.ReadView.ReadBytes` | include/Carbon/Alloc.h:508-515 | takes exactly the next bytes, or nothing |
| `Views.ReadView.OnNonStandardDataFound` | include/Carbon/Alloc.h:477-482 | fails a strict view and is only noted by a relaxed one |
| `Views.WriteView.WriteBytes` | include/Carbon/Alloc.h:545-552 | appends the bytes and changes nothing before them |
| `Views.ReadSmallString` | include/Carbon/Carbon.h:382-396 | the cursor reader agrees with the format on every input |
| `Views.ReadArrayLength` | include/Carbon/DataVm.h:407-425 | accepts exactly the counts whose elements fit the bytes left |
| `Views.ReadCounted` | include/Carbon/DataVm.h:427-443 | the cursor reader agrees with the format on every input |
| `IntX.IntXLawful` | include/Carbon/Int256Impl.h:91-151 | strict Read after Write yields every v in [-2^255, 2^255), takes exactly the image of nine bytes or more, and later bytes change nothing |
| `IntX.TrimmedLength` | include/Carbon/Int256Impl.h:57-80 | a value beyond 64 bits keeps eight bytes or more, exactly eight only with a top bit that disagrees with its sign |
| `IntX.CanonicalExactly` | include/Carbon/Int256Impl.h:91-126 | an accepted image is the writer's own if and only if its reserved bit is clear and no fill byte is left to trim |
| `IntXViews.Word256Lawful` | include/Carbon/Int256Impl.h:33-80 | every 256-bit word comes back from its trimmed image |
| `IntXViews.ReadWord` | include/Carbon/Int256Impl.h:33-56 | filling the word byte by byte agrees with the format on every input |
| `IntXViews.WriteWord256` | include/Carbon/Int256Impl.h:57-80 | trimming and copying appends the word's image |
| `IntXViews.Is8ByteSafe` | include/Carbon/Int256Impl.h:729-753 | true exactly when the signed word fits 64 bits |
| `IntXViews.Is8ByteSafeUnsigned` | include/Carbon/Int256Impl.h:468-481 | true exactly when the word is a non-negative 63-bit number |
| `IntXViews.ReadIntX` | include/Carbon/Int256Impl.h:91-126 | the reader on a test copy and the cursor agrees with the format on every input; a relaxed view also takes words that would fit the short form, and notes exactly those |
| `IntXViews.WriteIntX` | include/Carbon/Int256Impl.h:127-151 | both representations of a value append the same image |
| `CallCodec.SectionLawful` | include/Carbon/DataBlockchain.h:397-414 | one call section, offset or arguments, comes back and is canonical |
| `CallCodec.TailLawful` | include/Carbon/DataBlockchain.h:416-472 | plain arguments and sections are told apart by the sign of the next word and both come back |
| `CallCodec.TxMsgCallLawful` | include/Carbon/DataBlockchain.h:449-472 | a call comes back, takes exactly its image and only its own image is accepted |
| `PayloadViews.ReadTransferFt` | include/Carbon/DataBlockchain.h:489-492 | the field-by-field reader agrees with the payload's format on every input |
| `PayloadViews.WriteTransferFt` | include/Carbon/DataBlockchain.h:721-726 | the field-by-field writer appends the payload's image |
| `MessageCodecs.TransferFtLawful` | include/Carbon/DataBlockchain.h:489-492 | the payload comes back from its image, takes exactly its bytes and only values that can be written are read |
| `PayloadViews.ReadTransferFtGasPayer` | include/Carbon/DataBlockchain.h:494-497 | the field-by-field reader agrees with the payload's format on every input |
| `PayloadViews.WriteTransferFtGasPayer` | include/Carbon/DataBlockchain.h:728-734 | the field-by-field writer appends the payload's image |
| `MessageCodecs.TransferFtGasPayerLawful` | include/Carbon/DataBlockchain.h:494-497 | the payload comes back from its image, takes exactly its bytes and only values that can be written are read |
| `PayloadViews.ReadTransferNftSingle` | include/Carbon/DataBlockchain.h:499-502 | the field-by-field reader agrees with the payload's format on every input |
| `PayloadViews.WriteTransferNftSingle` | include/Carbon/DataBlockchain.h:736-741 | the field-by-field writer appends the payload's image |
| `MessageCodecs.TransferNftSingleLawful` | include/Carbon/DataBlockchain.h:499-502 | the payload comes back from its image, takes exactly its bytes and only values that can be written are read |
| `PayloadViews.ReadTransferNftSingleGasPayer` | include/Carbon/DataBlockchain.h:504-507 | the field-by-field reader agrees with the payload's format on every input |
| `PayloadViews.WriteTransferNftSingleGasPayer` | include/Carbon/DataBlockchain.h:743-749 | the field-by-field writer appends the payload's image |
| `MessageCodecs.TransferNftSingleGasPayerLawful` | include/Carbon/DataBlockchain.h:504-507 | the payload comes back from its image, takes exactly its bytes and only values that can be written are read |
| `PayloadViews.ReadTransferNftMulti` | include/Carbon/DataBlockchain.h:522-525 | the field-by-field reader agrees with the payload's format on every input |
| `PayloadViews.WriteTransferNftMulti` | include/Carbon/DataBlockchain.h:751-760 | the field-by-field writer appends the payload's image |
| `MessageCodecs.TransferNftMultiLawful` | include/Carbon/DataBlockchain.h:522-525 | the payload comes back from its image, takes exactly its bytes and only values that can be written are read |
| `PayloadViews.ReadTransferNftMultiGasPayer` | include/Carbon/DataBlockchain.h:527-531 | the field-by-field reader agrees with the payload's format on every input |
| `PayloadViews.WriteTransferNftMultiGasPayer` | include/Carbon/DataBlockchain.h:762-772 | the field-by-field writer appends the payload's image |
| `MessageCodecs.TransferNftMultiGasPayerLawful` | include/Carbon/DataBlockchain.h:527-531 | the payload comes back from its image, takes exactly its bytes and only values that can be written are read |
| `PayloadViews.ReadMintFt` | include/Carbon/DataBlockchain.h:536-539 | the field-by-field reader agrees with the payload's format on every input |
| `PayloadViews.WriteMintFt` | include/Carbon/DataBlockchain.h:774-779 | the field-by-field writer appends the payload's image |
| `MessageCodecs.MintFtLawful` | include/Carbon/DataBlockchain.h:536-539 | the payload comes back from its image, takes exactly its bytes and only values that can be written are read |
| `PayloadViews.ReadBurnFt` | include/Carbon/DataBlockchain.h:541-544 | the field-by-field reader agrees with the payload's format on every input |
| `PayloadViews.WriteBurnFt` | include/Carbon/DataBlockchain.h:781-785 | the field-by-field writer appends the payload's image |
| `MessageCodecs.BurnFtLawful` | include/Carbon/DataBlockchain.h:541-544 | the payload comes back from its image, takes exactly its bytes and only values that can be written are read |
| `PayloadViews.ReadBurnFtGasPayer` | include/Carbon/DataBlockchain.h:546-549 | the field-by-field reader agrees with the payload's format on every input |
| `PayloadViews.WriteBurnFtGasPayer` | include/Carbon/DataBlockchain.h:787-792 | the field-by-field writer appends the payload's image |
| `MessageCodecs.BurnFtGasPayerLawful` | include/Carbon/DataBlockchain.h:546-549 | the payload comes back from its image, takes exactly its bytes and only values that can be written are read |
| `PayloadViews.ReadMintNft` | include/Carbon/DataBlockchain.h:551-555 | the field-by-field reader agrees with the payload's format on every input |
| `PayloadViews.WriteMintNft` | include/Carbon/DataBlockchain.h:794-801 | the field-by-field writer appends the payload's image |
| `MessageCodecs.MintNftLawful` | include/Carbon/DataBlockchain.h:551-555 | the payload comes back from its image, takes exactly its bytes and only values that can be written are read |
| `PayloadViews.ReadBurnNft` | include/Carbon/DataBlockchain.h:557-560 | the field-by-field reader agrees with the payload's format on every input |
| `PayloadViews.WriteBurnNft` | include/Carbon/DataBlockchain.h:803-807 | the field-by-field writer appends the payload's image |
| `MessageCodecs.BurnNftLawful` | include/Carbon/DataBlockchain.h:557-560 | the payload comes back from its image, takes exactly its bytes and only values that can be written are read |
| `PayloadViews.ReadBurnNftGasPayer` | include/Carbon/DataBlockchain.h:562-565 | the field-by-field reader agrees with the payload's format on every input |
| `PayloadViews.WriteBurnNftGasPayer` | include/Carbon/DataBlockchain.h:809-814 | the field-by-field writer appends the payload's image |
| `MessageCodecs.BurnNftGasPayerLawful` | include/Carbon/DataBlockchain.h:562-565 | the payload comes back from its image, takes exactly its bytes and only values that can be written are read |
| `PayloadViews.ReadPhantasmaMsg` | include/Carbon/DataBlockchain.h:609-612 | the reader agrees with the format on every input |
| `PayloadViews.WritePhantasmaMsg` | include/Carbon/DataBlockchain.h:838-843 | the writer appends the payload's image |
| `PayloadViews.ReadWitness` | include/Carbon/DataBlockchain.h:1113-1124 | the reader agrees with the witness format on every input |
| `PayloadViews.WriteWitness` | include/Carbon/DataBlockchain.h:280-284 | the writer appends the witness's image |
| `PayloadViews.ReadInstanceIds` | include/Carbon/DataBlockchain.h:509-520 | the loop over ids agrees with the format on every input and stops at the first failure |
| `PayloadViews.WriteInstanceIds` | include/Carbon/DataBlockchain.h:751-772 | the loop over ids appends the list's image |
| `BodyCodecs.TradeListsLawful` | include/Carbon/DataBlockchain.h:567-607 | each MinBytesTrade bound is a true lower bound of its element's encoding, so the count checks never refuse a written trade |
| `BodyCodecs.BodyLawful` | include/Carbon/DataBlockchain.h:622-671 | the payload of each of the 17 types comes back, takes exactly its bytes, and other type bytes are refused |
| `Envelope.TxLawful` | include/Carbon/DataBlockchain.h:622-671 | a message of every type comes back from its image whatever follows, and only writable messages are read |
| `Envelope.ReserializesExactly` | include/Carbon/DataBlockchain.h:622-671 | re-serializing a read message gives its bytes back, unless its type holds a variable-length amount |
| `Envelope.FitsWhenWellFormed` | include/Carbon/DataBlockchain.h:243-278 | the stated well-formedness is all a message needs to be written and read back |
| `Envelope.SecondSigner` | include/Carbon/DataBlockchain.h:1021-1047 | exactly the doubly signed types name a second signer |
| `Envelope.WitnessesShape` | include/Carbon/DataBlockchain.h:950-1006 | which witnesses fit a message and how long their image is, in all three layouts |
| `Envelope.EnvelopeRoundTrip` | include/Carbon/DataBlockchain.h:950-1126 | reading a written envelope returns the message and its witnesses, takes exactly the image whatever follows, and the signed portion is the serialized message |
| `Envelope.MessageRoundTrip` | include/Carbon/DataBlockchain.h:622-916 | reading a written message returns it |
| `Envelope.TruncationRefused` | include/Carbon/DataBlockchain.h:416-606 | every strict prefix of an envelope and of a message is refused |
| `Envelope.EnvelopeSize` | include/Carbon/DataBlockchain.h:1059-1070 | EnvelopeBytes is the length of every envelope of that message with that many witnesses, as far as 32 bits hold it |
| `Envelope.CountIgnored` | include/Carbon/DataBlockchain.h:1059-1070 | the witness count plays no part for types that fix their own witnesses |
| `TxViews.ReadSection` | include/Carbon/DataBlockchain.h:397-414 | the rewinding reader agrees with the section format on every input |
| `TxViews.ReadSections` | include/Carbon/DataBlockchain.h:416-447 | the section loop agrees with the format and refuses the one count whose negation overflows |
| `TxViews.ReadCall` | include/Carbon/DataBlockchain.h:449-472 | the reader agrees with the call format on every input |
| `TxViews.WriteCall` | include/Carbon/DataBlockchain.h:673-704 | the writer appends the call's image |
| `TxViews.ReadCalls` | include/Carbon/DataBlockchain.h:474-478 | the loop that reads each call agrees with the format on every input |
| `TxViews.WriteCalls` | include/Carbon/DataBlockchain.h:706-713 | the loop that writes each call appends the list's image |
| `TxViews.ReadMintFtList` | include/Carbon/DataBlockchain.h:589-592 | the loop that reads each mint of a trade agrees with the format on every input |
| `TxViews.ReadMintNftList` | include/Carbon/DataBlockchain.h:597-601 | the loop that reads each instance mint of a trade agrees with the format on every input |
| `TxViews.ReadTrade` | include/Carbon/DataBlockchain.h:577-607 | the six list readers agree with the trade format on every input |
| `TxViews.WriteTrade` | include/Carbon/DataBlockchain.h:816-836 | the writer appends the trade's image |
| `TxViews.ReadBody` | include/Carbon/DataBlockchain.h:622-671 | the switch over the type byte agrees with the format on every input |
| `TxViews.WriteBody` | include/Carbon/DataBlockchain.h:850-916 | the switch over the type appends the payload's image |
| `EnvelopeViews.ReadTx` | include/Carbon/DataBlockchain.h:622-671 | the message reader agrees with the format on every byte string and never reads past it |
| `EnvelopeViews.WriteTx` | include/Carbon/DataBlockchain.h:850-916 | the message writer appends the message's image |
| `EnvelopeViews.ReadWitnessList` | include/Carbon/DataBlockchain.h:1086-1100 | the loop that reads address and signature of each witness agrees with the format on every input |
| `EnvelopeViews.ReadWitnesses` | include/Carbon/DataBlockchain.h:1078-1126 | agrees with the format on every input; witnesses that are read are signed rightly for the type, and the bytes taken are their layout by type |
| `EnvelopeViews.WriteWitnesses` | include/Carbon/DataBlockchain.h:950-1006 | appends the layout of the witnesses by type: a counted list, one signature, two, or nothing |
| `EnvelopeViews.ReadSigned` | include/Carbon/DataBlockchain.h:1078-1126 | reads an envelope and reports exactly the bytes the signature is made over |
| `EnvelopeViews.WriteSigned` | include/Carbon/DataBlockchain.h:950-1006 | appends the envelope's image |
| `EnvelopeViews.ParseTx` | include/Carbon/DataBlockchain.h:1130-1134 | answers what the message format reads off the front of any bytes |
| `EnvelopeViews.ParseSignedTx` | include/Carbon/DataBlockchain.h:1139-1143 | answers message, witnesses and signed portion of any bytes |
| `EnvelopeViews.WriteThenParse` | include/Carbon/DataBlockchain.h:950-1143 | writing a well-formed envelope and parsing it back, on the views, returns it |
| `GasConfigWire.ConfigReadsBack` | include/Carbon/DataBlockchain.h:306-394 | every version 1 configuration comes back whatever follows, and every version 0 configuration whose tail fields are zero |
| `GasConfigWire.ConfigTruncationRefused` | include/Carbon/DataBlockchain.h:345-394 | every truncated image is refused, also at the length of a version 0 image |
| `GasConfigWire.OldImageIsFrozen` | include/Carbon/DataBlockchain.h:306-342 | a version 0 image does not depend on the tail fields |
| `GasConfigWire.ReadGasConfig` | include/Carbon/DataBlockchain.h:345-394 | reading nineteen fields, testing the version and reading ten more agrees with the format on every input |
| `GasConfigWire.WriteGasConfig` | include/Carbon/DataBlockchain.h:306-342 | writing nineteen fields, and ten more unless the version is 0, appends the image |
| `GasConfigWire.WriteThenRead` | include/Carbon/DataBlockchain.h:306-394 | a configuration written to a buffer and read off it, field by field, comes back |
| `VmNames.NameLaws` | include/Carbon/DataCommon.h:147-150 | comparing names as C strings is a strict weak order, total on names without zero bytes |
| `VmNames.IsSorted` | include/Carbon/DataVm.h:812-822 | comparing neighbours decides the order of the whole list |
| `VmNames.SortSorted` | include/Carbon/DataVm.h:800-810 | distinct zero-free names sort strictly, to the one sorted list of the same fields |
| `VmNames.SortedUnique` | include/Carbon/DataVm.h:800-810 | a sorted list is determined by its fields |
| `VmNames.LowerBound` | include/Carbon/DataVm.h:768-787 | halving the range finds the first field not before the name |
| `VmNames.Lookup` | include/Carbon/DataVm.h:768-787 | the binary search answers the field at the bound, which on strictly sorted names is the field of that name wherever it is |
| `VmNames.BoundFinds` | include/Carbon/DataVm.h:768-787 | among names in order without zero bytes, repeated or not, the field at the bound is there exactly when some field bears the name |
| `VmTables.Table.Sorted` | include/Carbon/DataVm.h:800-810 | takes over an array and leaves its first fields in name order, the rest untouched |
| `VmTables.Table.Lookup` | include/Carbon/DataVm.h:768-787 | the lookup on the array in place |
| `VmTables.Table.Erase` | include/Carbon/DataVm.h:789-798 | removes exactly the field at the index, moving later ones back in place |
| `VmTables.Merge` | include/Carbon/DataVm.h:824-845 | the filled and sorted array holds the merge, and both inputs stay as they are |
| `VmTables.MergeIsUnion` | include/Carbon/DataVm.h:824-845 | seen through the lookup, merging is the right-biased union in which a null update deletes, and the result is sorted |
| `VmTables.LookupDetermines` | include/Carbon/DataVm.h:768-787 | two sorted structs that answer every lookup alike are equal |
| `VmTables.MergeSettles` | include/Carbon/DataVm.h:824-845 | applying the same updates again changes nothing, and no updates change nothing |
| `VmSchemas.SchemaFaithful` | include/Carbon/DataVm.h:539-601 | schemas of any nesting come back from their image, whatever follows |
| `VmSchemas.SchemaFitsIs` | include/Carbon/DataVm.h:559-589 | the writable schemas are those with counts below 2^31 and no structure under a plain type |
| `VmSchemas.SchemaGrows` | include/Carbon/DataVm.h:539-601 | the bound on nesting does not show on inputs no longer than it |
| `VmFlat.FlatFaithful` | include/Carbon/DataVm.h:953-1082 | numbers, blocks, texts, byte lists and their arrays come back, and each element size of a count check is a true lower bound |
| `VmFlat.FlatFitsIs` | include/Carbon/DataVm.h:1084-1213 | the writable flat values of each type byte, stated on the values |
| `VmFlat.TextLawful` | include/Carbon/Carbon.h:86-255 | a text without zero bytes comes back from its zero-terminated image and nothing else is read |
| `VmStructs.AssembledAgain` | include/Carbon/DataVm.h:1215-1271 | the reader puts together the sorted struct the schema-driven writer took apart |
| `VmStructs.ShortcutIsSafe` | include/Carbon/DataVm.h:679-700 | the writer's shortcut for extra fields never drops one when names are distinct |
| `VmStructs.ByFieldsFaithful` | include/Carbon/DataVm.h:656-702 | a struct that holds what its schema asks for comes back from its image under that schema |
| `VmCodec.ValueFaithful` | include/Carbon/DataVm.h:704-717 | values of every type and nesting come back from their image, whatever follows |
| `VmCodec.StructByFaithful` | include/Carbon/DataVm.h:1215-1271 | the same for structs under a schema |
| `VmCodec.DescribedFaithful` | include/Carbon/DataVm.h:1014-1048 | arrays of structs that carry their schema come back |
| `VmCodec.ValueGrows` | include/Carbon/DataVm.h:704-717 | a larger bound on nesting writes the same images and reads inputs no longer than the smaller bound alike |
| `VmCodec.ReadersAreUnbounded` | include/Carbon/DataVm.h:704-717 | no input nests deeper than its length, so the bound of the readers never shows |
| `VmLaws.ValueRoundTrip` | include/Carbon/DataVm.h:704-717 | every storable value comes back, the reader takes exactly the image and refuses every strict prefix |
| `VmLaws.StructRoundTrip` | include/Carbon/DataVm.h:656-1271 | for a sorted struct holding every schema field at its type, and others only where allowed, Read(schema) after Write(schema) returns it and takes exactly the image |
| `VmLaws.UnsortedComesBackSorted` | include/Carbon/DataVm.h:633-654 | a struct with fields out of order comes back in order |
| `VmLaws.AnswerMissesTypes` | include/Carbon/DataVm.h:656-672 | the writer answers true for a mistyped field that comes back as zero |
| `VmLaws.NotOnlyTheStorable` | include/Carbon/DataVm.h:656-1271 | a struct whose only field is named by a zero byte is not storable and comes back all the same |
| `VmLaws.NullComesBackEmpty` | include/Carbon/DataVm.h:1096-1104 | a null pointer comes back as a pointer to an empty array |
| `VmLaws.NoFieldsExactly` | include/Carbon/DataVm.h:1215-1222 | under a schema without fields a struct comes back if and only if it is empty and the schema forbids extras |
| `VmLaws.StructArrayExactly` | include/Carbon/DataVm.h:1014-1174 | an array of structs that carries its schema comes back if and only if it has elements under a schema with fields, or neither elements nor schema; without schema fields that holds whatever the elements are |
| `VmRepairs.TakenApart` | include/Carbon/DataVm.h:656-1271 | taking a struct apart under a schema undoes putting it together, whatever the values and the other fields |
| `VmRepairs.RepairIsStorable` | include/Carbon/DataVm.h:1084-1213 | what comes back of a usable value, at every depth, is a value of the type asked for that can be written |
| `VmRepairs.WritesAlike` | include/Carbon/DataVm.h:1084-1213 | a usable value and its repair are written the same way, at every depth |
| `VmRepairs.ByAlike` | include/Carbon/DataVm.h:656-702 | a usable struct and its repair are written the same way under a schema |
| `VmReturns.ComesBackRepaired` | include/Carbon/DataVm.h:656-1271 | of whatever usable struct is written, the reader takes exactly the image and returns its repair: zeroes for the missing and mistyped fields and no forbidden ones, at every depth |
| `VmReturns.ComesBackExactly` | include/Carbon/DataVm.h:656-1271 | a usable struct comes back if and only if at no depth a field was missing, of another type or forbidden |
| `VmReturns.ValueComesBackRepaired` | include/Carbon/DataVm.h:704-717 | of whatever usable value is written with its type byte, the reader returns its repair |
| `VmReturns.ValueComesBackExactly` | include/Carbon/DataVm.h:704-717 | a usable value comes back if and only if it is intact at every depth |
| `VmReturns.StorableExactly` | include/Carbon/DataVm.h:1084-1213 | the storable values are exactly the usable ones that are intact |
| `VmReturns.AnswerMissesNested` | include/Carbon/DataVm.h:656-672 | a nested struct whose field is of another type, or missing, is answered true with every outer field at its type, and comes back with a zero |
| `VmViews.ReadText` | include/Carbon/Carbon.h:240-255 | the byte loop agrees with the format on every input |
| `VmViews.ReadFlat` | include/Carbon/DataVm.h:953-1082 | the switch over the flat types agrees with the format on every input |
| `VmViews.ReadMany` | include/Carbon/DataVm.h:1054-1078 | the element loops of the five kinds of arrays agree with the format on every input |
| `VmViews.ReadSchema` | include/Carbon/DataVm.h:539-595 | the recursive reader agrees with the format on every input |
| `VmReaders.ReadVariable` | include/Carbon/DataVm.h:704-711 | the recursive reader agrees with the format on every input; `VmLayouts` has the bytes of that format, type by type |
| `VmReaders.ReadPayload` | include/Carbon/DataVm.h:953-1082 | the switch over the type agrees with the format on every input, with and without a schema |
| `VmReaders.ReadFields` | include/Carbon/DataVm.h:604-625 | the list reader followed by sorting agrees with the format on every input |
| `VmReaders.ReadStructBy` | include/Carbon/DataVm.h:1215-1271 | reading each schema field, then the unchecked count of extras, agrees with the format on every input |
| `VmReaders.ReadRecords` | include/Carbon/DataVm.h:1014-1048 | reading under the schema at hand or the carried one agrees with the format on every input |
| `VmReaders.ReadAnyVariable` | include/Carbon/DataVm.h:704-711 | the reader ends on every byte string, never reads past it and answers what the format says |
| `VmReaders.ReadAnyStruct` | include/Carbon/DataVm.h:1215-1271 | the same for a struct under any schema |
| `VmWriters.WriteSchema` | include/Carbon/DataVm.h:559-601 | appends the schema's image |
| `VmWriters.WriteMany` | include/Carbon/DataVm.h:1184-1212 | the element loops of the five kinds of arrays append the image |
| `VmWriters.WriteVariable` | include/Carbon/DataVm.h:713-717 | appends the value's image, whether or not it can be read back; `VmLayouts` has its bytes, type by type |
| `VmWriters.WritePayload` | include/Carbon/DataVm.h:1084-1213 | appends the value at the type asked for or a zero of that type, and answers exactly whether it was asked for its own type |
| `VmWriters.WriteFields` | include/Carbon/DataVm.h:633-654 | sorts a copy when a neighbour is out of order and appends the image of the sorted struct |
| `VmWriters.WriteStructBy` | include/Carbon/DataVm.h:656-702 | for sorted fields, appends the image under the schema and answers exactly whether every schema field was found |
| `VmWriters.WriteRecords` | include/Carbon/DataVm.h:1160-1180 | appends the image under the schema at hand, under its own, or untyped |
| `AmountText.ParseTokenAmount` | include/Carbon/FeePlanSummary.h:35-86 | accepts exactly the digit strings with at most one point, at most d fraction digits and a value below 2^64, and returns that value |
| `AmountText.DigitGuard` | include/Carbon/FeePlanSummary.h:55-70 | the overflow guard lets a digit through exactly when the value stays in 64 bits |
| `AmountText.FormatTokenAmount` | include/Carbon/FeePlanSummary.h:88-121 | prints the amount's digits around a point, without trailing zeros |
| `AmountText.FormatReads` | include/Carbon/FeePlanSummary.h:35-121 | parsing a printed amount gives it back; at least one digit and no spare zero stands before the point, no fraction ends in a zero, and without one there is no point |
| `AmountText.PointIsZero` | include/Carbon/FeePlanSummary.h:35-86 | the text "." is an amount of zero for every number of decimals the parser takes |
| `Arena.Allocator.constructor` | include/Carbon/Alloc.h:329-345 | a new arena is sound, holds no blocks and owns one chunk of 65536 bytes |
| `Arena.Allocator.NewChunk` | include/Carbon/Alloc.h:329-345 | the new chunk is large enough and apart from all others, and every block stays as it is |
| `Arena.Allocator.AllocFromHead` | include/Carbon/Alloc.h:348-376 | a block cut from the newest chunk is aligned, inside it and disjoint from every block before |
| `Arena.Allocator.Alloc` | include/Carbon/Alloc.h:256-266 | the block is aligned, inside one live chunk and disjoint from every other; it lies behind the alignment in the newest chunk, or at the front of a new chunk where it does not fit |
| `Arena.Allocator.Clone` | include/Carbon/Alloc.h:286-294 | the block holds the bytes given, behind what is used of the newest chunk or at the front of a new one |
| `Arena.Allocator.Clear` | include/Carbon/Alloc.h:417-436 | every block is given back and one empty chunk is kept |
| `Arena.BlockAdded` | include/Carbon/Alloc.h:348-376 | cutting a block from the unused end of the newest chunk keeps every block disjoint and used <= size |
| `Layouts.TransferFtLayout` | include/Carbon/DataBlockchain.h:721-726 | the bytes of the payload, field after field, for every value |
| `Layouts.TransferFtGasPayerLayout` | include/Carbon/DataBlockchain.h:728-734 | the bytes of the payload, field after field, for every value |
| `Layouts.TransferNftSingleLayout` | include/Carbon/DataBlockchain.h:736-741 | the bytes of the payload, field after field, for every value |
| `Layouts.TransferNftSingleGasPayerLayout` | include/Carbon/DataBlockchain.h:743-749 | the bytes of the payload, field after field, for every value |
| `Layouts.TransferNftMultiLayout` | include/Carbon/DataBlockchain.h:751-760 | the bytes of the payload, field after field, for every value |
| `Layouts.TransferNftMultiGasPayerLayout` | include/Carbon/DataBlockchain.h:762-772 | the bytes of the payload, field after field, for every value |
| `Layouts.MintFtLayout` | include/Carbon/DataBlockchain.h:774-779 | the bytes of the payload, field after field, for every value |
| `Layouts.BurnFtLayout` | include/Carbon/DataBlockchain.h:781-785 | the bytes of the payload, field after field, for every value |
| `Layouts.BurnFtGasPayerLayout` | include/Carbon/DataBlockchain.h:787-792 | the bytes of the payload, field after field, for every value |
| `Layouts.MintNftLayout` | include/Carbon/DataBlockchain.h:794-801 | the bytes of the payload, field after field, for every value |
| `Layouts.BurnNftLayout` | include/Carbon/DataBlockchain.h:803-807 | the bytes of the payload, field after field, for every value |
| `Layouts.BurnNftGasPayerLayout` | include/Carbon/DataBlockchain.h:809-814 | the bytes of the payload, field after field, for every value |
| `Layouts.PhantasmaMsgLayout` | include/Carbon/DataBlockchain.h:838-843 | the bytes of the payload, field after field, for every value |
| `Layouts.MessageLayout` | include/Carbon/DataBlockchain.h:850-916 | the bytes of a message of every type, with the type byte and the payload in literal fields: type, expiry, limits, payer, note, payload |
| `Layouts.EnvelopeLayout` | include/Carbon/DataBlockchain.h:950-1006 | the bytes of an envelope by type: one signature for the seven plain types, two for the five with a gas payer, a count with addresses and signatures for the four that choose their witnesses, nothing for the raw one |
| `Layouts.VectorLayout` | tests/fixtures/carbon_vectors.tsv:73 | the model writes this transfer exactly as the repository's vector has it |
| `Layouts.TypedPayloadIs` | include/Carbon/DataBlockchain.h:721-916 | each of the 17 types has its own number in front and its payload in literal fields behind the header |
| `Layouts.CallLayout` | include/Carbon/DataBlockchain.h:673-705 | module and method, then the arguments behind their count, or the negated number of sections and each section |
| `Layouts.CallMultiLayout` | include/Carbon/DataBlockchain.h:706-714 | the number of calls and the calls |
| `Layouts.TradeLayout` | include/Carbon/DataBlockchain.h:816-837 | six lists, each its count and its payloads one after another |
| `Layouts.SignedRightlyExactly` | include/Carbon/DataBlockchain.h:953-1005 | the witnesses that fit a message, by type: whose signatures they are and how many |
| `Layouts.EnvelopeBytesAre` | include/Carbon/DataBlockchain.h:1021-1075 | the envelope adds 4 and 96 for each witness, or 64, or 128, or nothing, by type |
| `NumberLayouts.AmountLayout` | include/Carbon/Int256Impl.h:127-151 | the header byte is the number of bytes and the sign, then the low bytes of the number: eight for 64 bits, and otherwise as few as keep the value |
| `NumberLayouts.AmountTaken` | include/Carbon/Int256Impl.h:91-126 | says of every byte string whether the strict reader takes it, and which number |
| `NumberLayouts.WordLayout` | include/Carbon/Int256Impl.h:57-80 | the header and the bytes of a 256-bit word that do not repeat its sign |
| `NumberLayouts.WordTaken` | include/Carbon/Int256Impl.h:33-56 | says of every byte string whether it is taken for a word, and which word |
| `NumberLayouts.AmountVectors` | include/Carbon/Int256Impl.h:127-151 | the images of 0, 1, -1 and -256 byte for byte |
| `NumberLayouts.WordVectors` | tests/fixtures/carbon_vectors.tsv:70 | the images of 0, -1, 255 and -255 byte for byte as in that vector, and that of the largest word |
| `GasConfigWire.ConfigLayout` | include/Carbon/DataBlockchain.h:306-342 | the 19 fields in their order and sizes, and ten more from version 1 on |
| `VmNames.NameOrder` | include/Carbon/DataCommon.h:147-150 | names are compared as unsigned bytes at the first place where they differ, no further than a zero byte |
| `VmLayouts.SingleLayout` | include/Carbon/DataVm.h:65-1141 | the type byte, by number (lines 68-79), and the payload of every single flat value |
| `VmLayouts.ArrayLayout` | include/Carbon/DataVm.h:65-1212 | the type byte, by number (lines 81-91), the count and the elements of every array of flat values |
| `VmLayouts.PointerLayout` | include/Carbon/DataVm.h:1096-1104 | a pointer and the value behind it; an empty array stands for the null pointer |
| `VmLayouts.ValuesLayout` | include/Carbon/DataVm.h:1151-1155 | an array of values, each with its type byte |
| `VmLayouts.NamedLayout` | include/Carbon/DataVm.h:627-631 | a field: the length of its name, the name, the type byte, the payload |
| `VmLayouts.StructLayout` | include/Carbon/DataVm.h:633-654 | a struct without a schema: the number of fields and the fields in name order |
| `VmLayouts.StructsLayout` | include/Carbon/DataVm.h:1159-1182 | an array of structs with the schema it carries, or without one where that has no fields |
| `VmLayouts.SchemaLayout` | include/Carbon/DataVm.h:559-601 | the number of fields; of each the name, the type byte and for types 4 and 5 the inner schema; the flags |
| `VmLayouts.PayloadLayout` | include/Carbon/DataVm.h:948-951 | under a schema a value is written as elsewhere, but without its type byte |
| `VmLayouts.RecordLayout` | include/Carbon/DataVm.h:1108-1182 | structs and arrays of structs whose schema is at hand are written by it |
| `VmLayouts.ZeroLayout` | include/Carbon/DataVm.h:1084-1092 | the zeros that stand for a missing or mistyped field, for every type |
| `VmLayouts.StructByLayout` | include/Carbon/DataVm.h:656-702 | the fields in schema order, then with the lowest flag set the number of the other fields and those, named and typed |
| `VmLayouts.FlagsDecide` | include/Carbon/DataVm.h:1233-1270 | what each value of the two flags makes of the fields that were read |
| `VmLayouts.VectorSchemas` | tests/fixtures/carbon_vectors.tsv:71 | the three schemas of that vector, byte for byte |
| `FeePrices.TransferPrice` | include/Carbon/FeeEstimator.h:510-513 | the transfer fee, a query for an address made of an instance, and the balance row of a new holder |
| `FeePrices.MintPrice` | include/Carbon/FeeEstimator.h:523-527 | the transfer fee, the balance and supply rows, and an answer of 33 or 9 bytes |
| `FeePrices.BurnPrice` | include/Carbon/FeeEstimator.h:529-533 | one transfer fee, the rows of the burnt counter and the supply, and an answer of 33 or 9 bytes |
| `FeePrices.InstanceTransferPrice` | include/Carbon/FeeEstimator.h:515-521 | a transfer fee, a new and a deleted row for each instance |
| `FeePrices.InstanceMintPrice` | include/Carbon/FeeEstimator.h:535-554 | the rows of each instance from its ROM and RAM sizes and the overheads 62 and 17, 4 + 8n bytes of answer, one query in all |
| `FeePrices.PhantasmaMintPrice` | include/Carbon/FeeEstimator.h:556-585 | the rows of each canonical ROM, two or three queries for each instance, the supply reads of distinct series, 4 + 40n bytes of answer |
| `FeePrices.InstanceBurnPrice` | include/Carbon/FeeEstimator.h:587-616 | the fees of a burn and of the assets it returns, the rows it creates and those it deletes |
| `FeePrices.CreationPriced` | include/Carbon/FeeEstimator.h:618-638 | the rows of a creation, its base and symbol price by gas model, and a query for each of two metadata keys |
| `FeePrices.SeriesPrice` | include/Carbon/FeeEstimator.h:640-647 | the rows from the overhead 13 and the size of the series, and its price by gas model |
| `FeePrices.NamePrice` | include/Carbon/FeeEstimator.h:649-663 | the price halved once per character after the first, by gas model, and no row |
| `FeePrices.ScriptPrice` | include/Carbon/FeeEstimator.h:665-669 | exactly the budget |
| `FeePrices.RefusedExactly` | include/Carbon/FeeEstimator.h:495-690 | which inputs of each kind are refused |
| `FeePrices.PriceIgnores` | include/Carbon/FeeEstimator.h:495-672 | configurations that agree on the fields a kind names charge the same: no other field changes the price |
| `FeePrices.BatchAdds` | include/Carbon/FeeEstimator.h:743-750 | one more operation adds its own charges to those of the batch |
| `FeeQuotes.SettledV2` | include/Carbon/FeeEstimator.h:704-739 | under model v2: 25 units per byte of envelope, answer and net rows on top of the work, scaled, with the policy fee; bill and offer with their floors, and min(2^64 - 1, rows * dataEscrowPerRow) of escrow |
| `FeeQuotes.SettledV1` | include/Carbon/FeeEstimator.h:721-739 | under model v1: work scaled and bytes priced; the offer with twice the minimum and at least 1024 bytes |
| `FeeQuotes.SettlementIgnores` | include/Carbon/FeeEstimator.h:694-740 | no field beyond those named enters a settlement |
| `FeeQuotes.MeasuredTransfers` | tests/gas_config_fee_tests.cpp:634-735 | the bills of five transfers the tests quote from a chain |
| `FeeQuotes.MeasuredMintsAndBurns` | tests/gas_config_fee_tests.cpp:634-735 | the bills of a mint and two burns the tests quote from a chain |
| `FeeQuotes.MeasuredCreations` | tests/gas_config_fee_tests.cpp:634-735 | the bills of two creations the tests quote from a chain |
| `FeeQuotes.MeasuredNames` | tests/gas_config_fee_tests.cpp:634-735 | the bills of two names the tests quote from a chain |
| `FeeQuotes.MeasuredPhantasmaMint` | tests/gas_config_fee_tests.cpp:634-735 | the bill of a Phantasma mint the tests quote from a chain |
| `FeeQuotes.PackageInstances` | include/Carbon/FeeEstimator.h:495-740 | quotes in numbers: instances moved, and minted with sizes of their own |
| `FeeQuotes.PackagePhantasmaMint` | include/Carbon/FeeEstimator.h:495-740 | a quote in numbers: two instances of duplicated series |
| `FeeQuotes.PackageBurn` | include/Carbon/FeeEstimator.h:495-740 | a quote in numbers: a burn that returns two assets |
| `FeeQuotes.PackageOthers` | include/Carbon/FeeEstimator.h:495-740 | quotes in numbers: a series, a script, and a token with all four metadata keys |
| `FeeQuotes.DistinctV2` | include/Carbon/FeeEstimator.h:495-740 | quotes under model v2 where all prices differ and none is 0 |
| `FeeQuotes.DistinctFloors` | include/Carbon/FeeEstimator.h:718-719 | quotes raised to the minimum bill and to the minimum offer |
| `FeeQuotes.DistinctV1` | include/Carbon/FeeEstimator.h:495-740 | quotes under model v1 where all prices differ and none is 0 |
| `FeeQuotes.LiveQuotes` | include/Carbon/FeeEstimator.h:721-739 | quotes in numbers under model v1 prices |
| `FeeQuotes.BatchOfTwo` | include/Carbon/FeeEstimator.h:777-806 | two transfers in one message, settled once |
| `FeeCalls.NftAddressExactly` | include/Carbon/Tx.h:94-107 | an address is derived from an instance exactly when it is fifteen zeros, a one, and two words that are not zero |
| `FeeCalls.TransferDescribed` | include/Carbon/FeePlan.h:337-346 | the parameters of a fungible transfer, field by field |
| `FeeCalls.InstanceTransferDescribed` | include/Carbon/FeePlan.h:348-371 | the parameters of the four instance transfers, field by field |
| `FeeCalls.MintDescribed` | include/Carbon/FeePlan.h:373-394 | the parameters of both mints, field by field |
| `FeeCalls.BurnDescribed` | include/Carbon/FeePlan.h:379-406 | the parameters of the four burns, and the refusal without the returned assets |
| `FeeCalls.ScriptDescribed` | include/Carbon/FeePlan.h:429-439 | a trade and a script are budgeted, a raw envelope is refused |
| `FeeCalls.OtherCallsAreScripts` | include/Carbon/FeePlan.h:448-452 | calls with sections and calls that are not priced are budgeted as scripts |
| `FeeCalls.TransferCallDescribed` | include/Carbon/FeePlan.h:464-471 | what a transfer call is described as, read off its argument bytes |
| `FeeCalls.InstanceTransferCallDescribed` | include/Carbon/FeePlan.h:472-479 | what an instance transfer call is described as, read off its argument bytes |
| `FeeCalls.MintCallDescribed` | include/Carbon/FeePlan.h:480-487 | what a mint call is described as, read off its argument bytes |
| `FeeCalls.BurnCallDescribed` | include/Carbon/FeePlan.h:488-492 | what a burn call is described as, read off its argument bytes |
| `FeeCalls.InstanceBurnCallDescribed` | include/Carbon/FeePlan.h:493-504 | what an instance burn call is described as, read off its argument bytes |
| `FeeCalls.PhantasmaMintDescribed` | include/Carbon/FeePlan.h:273-315 | token, recipient, count, of each entry the ROM and RAM length in its own list, and the number of distinct series, read off the argument bytes |
| `FeeCalls.CreationDescribed` | include/Carbon/FeePlan.h:228-264 | symbol and argument length, the non-fungible bit and the four metadata keys, read off the argument bytes |
| `FeeCalls.SeriesDescribed` | include/Carbon/FeePlan.h:515-522 | the length of the arguments behind the token id |
| `FeeCalls.NameDescribed` | include/Carbon/FeePlan.h:537-551 | the length of the name behind the address |
| `FeeCalls.ShortArgumentsRefused` | include/Carbon/FeePlan.h:464-551 | arguments too short for their method are refused |
| `FeeCalls.BurnedListed` | include/Carbon/FeePlan.h:654-695 | the instances a burn call lists, and that of a native burn |
| `FeePlanLaws.StatedExactly` | include/Carbon/FeePlan.h:606-617 | the witness counts a plan accepts, by type |
| `FeePlanLaws.PlannedAs` | include/Carbon/FeePlan.h:599-642 | when a message is planned, and its quote, kinds and envelope size |
| `FeePlanLaws.ExactAs` | include/Carbon/FeePlan.h:570-588 | exact is: no script, and the seven facts at their cheaper readings leave bill, offer and ceiling as they are |
| `FeePlanLaws.VectorPlanned` | tests/fixtures/carbon_vectors.tsv:73 | the transfer of that vector, planned in numbers, for a token whose row is free and one whose row may be new |
| `FeePlanLaws.PlanVector` | include/Carbon/FeePlan.h:599-642 | the planner answers those plans |
| `SignedCodec.SignedForm` | include/Numerics/BigInteger.h:1680-1757 | the bytes written for zero, for positive and for negative numbers: where the guards stand, and that no byte is to spare |
| `Arena.Allocator.CloneIntoHead` | include/Carbon/Alloc.h:378-386 | a copy behind what is used of the newest chunk, or none where it does not fit |
| `Base58.GlyphsAre` | include/Numerics/Base58.h:11 | the digits and capitals of the alphabet, in order |
| `Base58.SmallGlyphsAre` | include/Numerics/Base58.h:11 | the small letters of the alphabet, in order |
| `FeeQuotes.MeasuredBills` | tests/gas_config_fee_tests.cpp:708-735 | the calculator itself answers three of those bills |

## Left out

- Limbs.Multiply: the accumulator declared as a signed 64-bit integer (`BigInteger.h:621`) is modelled as the unsigned 64-bit word it stands for.
- Shifts.ShiftRight: the lowest limb is shifted by the full count in the code (`BigInteger.h:1077`), which the language leaves undefined for 32 or more; the model takes that count modulo 32.
- BigIntegers.BigInteger.ShiftedRight: takes the count of the lowest limb modulo 32, as `Shifts.ShiftRight` does.
- BigIntegers.BigInteger.ShiftRightAssign: takes the count of the lowest limb modulo 32, as `Shifts.ShiftRight` does.
- BigIntegers.BigInteger.GetBitLength: the floating-point logarithm is replaced by the integer bit length it is meant to give.
- BigIntegers.BigInteger.Plus: asks for operands the class itself produces, or a zero that still carries a negative sign; vectors with leading zero limbs are not modelled.
- Division.DivideAndModulus: a negative divisor of two limbs or more is taken only for a shorter dividend; with a longer one the correction loop never corrects (`LongDivision.CorrectDigit`), the multiple stays added to the window and no longer fits it. Nothing in the repository calls it so.
- Division.Quotient: a zero divisor is answered with ok = false where the code raises an exception; the same holds for every refusal in this model.
- Modular.ModInverse: negative moduli are not modelled; a zero modulus is refused, where the code raises its division by zero.
- Base58.Decode: the byte-string result is modelled, not the caller's output buffer and its length.
- FeeSettlement.SettleIsPriced: asks that rows and result bytes do not wrap 64 bits; beyond that only the narrowed arithmetic of `FeeEstimator.AddNarrow` is stated.
- FeePlanning.ExactIsPrediction: a sufficient condition only, that the batch is covered; `FeeReadings.ExactDecided` has the exact one. Both ask that the totals do not wrap 64 bits.
- TokenMetadata.WrittenKeysAreFound: asks for distinct names without zero bytes; with others the lookup stops at the first field of an equal C string, in the order a stable sort leaves.
- TokenCalls.ReadEntries: an unusable element count reads as zero, as in a build without exceptions; the exception of the other build is not modelled.
- EnvelopeViews.ReadSigned: a signature is any 64 bytes, and every reader of transactions is stated for strict views.
- Envelope.EnvelopeRoundTrip: asks for array lengths below 2^31, and of a call either a negative register offset without arguments or offset 0 in each section, and no arguments beside sections; `Envelope.FitsWhenWellFormed` shows that no less will do.
- Layouts.MessageLayout: asks for fewer than 2^31 sections in a call, whose count is written negated; so do `Layouts.EnvelopeLayout` and `Layouts.EnvelopeBytesAre`.
- VmLayouts.StructByLayout: asks for distinct names, with which the writer's shortcut for extra fields drops none, and for room to nest; so do the other layouts of values that hold values.
- The special-resolution payload is not among the 17 transaction types and is not modelled.
- PayloadViews.ReadInstanceIds: the array reader is one template over a lambda in the code and one loop per element type here.
- VmNames.SortSorted: `std::sort` is modelled as a stable sort; what it does with two equal names is unspecified in the code, and the round trips ask for distinct names.
- VmLaws.ValueRoundTrip: asks for distinct names without zero bytes, counts below 2^31 and no null pointer, which is enough and not needed: `VmLaws.NotOnlyTheStorable` has a struct without them that comes back.
- VmWriters.WriteStructBy: asks for sorted fields, as the binary-search lookup does; on unsorted fields the lookup's answer is unspecified.
- VmReaders.ReadPayload: the build with exceptions is modelled, a thrown exception being a refusal.
- VmReturns.ComesBackExactly: asks for usable structs (sorted fields with usable names, known types, counts below 2^31); what becomes of arrays of structs without elements or without schema fields below the top is not stated.
- FeePlanning.PlanIsUpperBound: a sufficient condition only, that the batch is covered; `FeeReadings.UpperBoundExactly` has the exact one.
- VmTables.Table.Erase: the field is named by its index, not by the address of its value.
- Arena.Allocator.Alloc: the address of a new chunk is a parameter that has to be aligned and apart from the live chunks, and a size times a count is not bounded by the machine's address width.
- Pointers, unions and views into caller memory are values throughout; their lifetimes are not modelled.
- `uint256` and `int256` arithmetic is delegated to a library that is not part of this model; only the 32-byte word and its wire form are.
- Hashes, signatures, key pairs, encrypted keys and checksummed forms of Base58 are calls into cryptography that is not part of this model.
- Decimal and hexadecimal texts of big integers, `FlipBit`, `TestBit` and `DivideAndRoundToClosest` would add only easy members.
- JSON, RPC, HTTP, adapters, preflight and sending are orchestration without logic of their own.
- Names of VM types (`VmTypeFromString`), standard metadata keys, event tables and address tests beyond the planner's own are true but easy.
- The expiry of messages, allocation logging and secure memory depend on clocks and the platform.
