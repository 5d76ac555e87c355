# Verified model of the threshold-ECDSA big-integer, class-group and session code

The repository implements threshold ECDSA. This project models its exact arithmetic and its
round-driven protocol layer in Dafny and proves what they compute, for all inputs.

**The subgroup F of the CL-HSM class group.** `power_of_f` runs a Lucas ladder modulo q^k, turns
the result into a ring parameter t with (1 + sqrt D)^m proportional to 1 + t sqrt D, and builds a
quadratic form from t; `dlog_in_F` reads the parameter off a form and peels the base-q digits of m
(`Lucas`, `QuadraticRing`, `UnitPowers`, `FSubgroup`, `FLogarithm`). The reduction of forms, alone and
carrying the generator of the form's ideal, is in `FormReduction`; that the reduced form is the one
representative of its class is in `FormClasses`.

**Threshold decryption and key generation.** Delta-scaled Lagrange coefficients by interleaved exact
divisions (`Lagrange`), the CL scheme over an abstract abelian group in which `dlog_in_F(f^x) = x mod
q^k` (`AbelianGroup`, `ClScheme`), threshold decryption (`ThresholdCl`), chunked distributed key
generation (`DkgCl`, `DkgReveal`), publicly verifiable sharing (`Pvss`) and the product of shared
values (`ScaledDecrypt`).

**Big integers.** Tonelli-Shanks, Blum residues and fourth roots (`SquareRoots`), simultaneous
exponentiation (`MultiExp`), the double sieve (`PrimeSieve`). What they rest on is proved, not assumed:
modular inverses, Fermat's little theorem, Euler's criterion, the root bound for polynomials modulo a
prime (`Congruence`, `Primes`, `Polynomials`, `Residues`, `Bits`).

**Sessions.** The wire envelope (`Codec`), the in-memory network (`Network`), the runner with duplicate
detection and future-round buffering (`Runner`), what becomes of every message over whole runs of a
runner and over whole sessions (`RunnerLedger`, `SessionLedger`), a whole round of a wire session told
party by party and mailbox by mailbox (`SessionRounds`), and the commit-reveal key generation and the
ping-pong session under a direct and a wire driver (`ToyDkg`, `Drivers`, `WireDriver`, `ToyRuns`,
`ToyWire`, `PingPong`).

Objects that the source updates in place are classes here (`MutableForm`, `InMemoryNetwork`,
`SessionRunner`, `ToyDkgMachine`, `Orchestrator`); each method is proved equal to a function of the
old state, and the lemmas are about those functions. Loops over updated variables are methods with
invariants. Class-group elements in the threshold protocols are an abstract type: the laws of a
commutative group and of `dlog_in_F` are the hypotheses (`ValidSetup`).

## Where the code differs from what one might expect

- For q = 3 and k > 1 the digit recovery of `dlog_in_F` is wrong for every exponent of three or more:
  the parameter of q is 2q modulo q^2, so digits above the lowest are read doubled. The constructor
  accepts such parameters. `FLogarithm.DlogOfPower` gives the exact condition, `CubeFails` an instance.
- `final_decrypt` with n >= q returns 0 whatever was encrypted, because q divides delta
  (`ThresholdCl.FinalDecryptCorrect`).
- `sqrt_mod` answers nothing for multiples of p, although 0 is a square (`SquareRoots.SqrtMod`).
- `decode` accepts a declared header length above 40 and ignores the surplus bytes (`Codec.DecodeOkIff`).
- The parallel prime search panics on an empty prime list, where the sequential one works
  (`PrimeSieve.SearchWindowPar`).
- A buffered message is handed over if and only if some call of `step_decode` ends its batch with
  the machine in the message's round (`RunnerLedger.HandedOverIff`). A machine that skips the round
  strands it: `SkippedRoundStrands` is an instance, and `StrandedForever` says that it then stays in
  the buffer whatever happens.
- A party with id 65535 breaks two-party sessions: its id is also the `to` field of broadcasts, so
  point-to-point messages to it are not handed over ahead of their round. `PingPong.MatchEnds` says
  exactly which ids the ping-pong session of the tests finishes for.
- A toy session of one party never finishes, under either driver (`ToyRuns.LonePartyNeverFinishes`,
  `ToyWire.LonePartyExceedsLimit`).

## Model

| member | source | states |
|---|---|---|
| FSubgroup.LucasVInvertible | crates/primitives/tecdsa-class-group/src/cl.rs:812-820 | V_m is invertible modulo q^k for every m and every accepted parameter set, so the `expect` in `ring_param_from_exponent` never fires |
| FSubgroup.RingParam | crates/primitives/tecdsa-class-group/src/cl.rs:812-820 | the value U_m V_m^-1 mod q^k is the ratio of the two coordinates of (1 + sqrt D)^m modulo q^k |
| FSubgroup.RingParamFromExponent | crates/primitives/tecdsa-class-group/src/cl.rs:812-820 | the computation through the Lucas ladder returns that parameter |
| FSubgroup.ValQCorrect | crates/primitives/tecdsa-class-group/src/cl.rs:1032-1045 | `val_q` is the exponent of the largest power of q dividing a non-zero x |
| FSubgroup.ValuationLoop | crates/primitives/tecdsa-class-group/src/cl.rs:1034-1045 | the dividing loop terminates and returns the valuation, 0 for 0 |
| FSubgroup.OddInverse | crates/primitives/tecdsa-class-group/src/cl.rs:833-838 | the lifted and centred inverse is the odd representative strictly inside (-q^j, q^j), still inverse to w modulo q^j |
| FSubgroup.RawFormExact | crates/primitives/tecdsa-class-group/src/cl.rs:828-841 | t / q^v and the division by four are exact for every non-zero parameter |
| FSubgroup.RawFormMeaning | crates/primitives/tecdsa-class-group/src/cl.rs:823-844 | for t = q^v w and j = k - v the form has a = q^2j and b = q^j u, with u the odd number in (-q^j, q^j) inverse to w |
| FSubgroup.RawFormCorrect | crates/primitives/tecdsa-class-group/src/cl.rs:823-844 | the form built from any non-zero parameter is positive definite of discriminant exactly q^2k D |
| FSubgroup.SmallMessageIff | crates/primitives/tecdsa-class-group/src/cl.rs:406-408 | the regime flag is small exactly when 4 q^2k <= 1 + p q |
| FSubgroup.AcceptedIsValid | crates/primitives/tecdsa-class-group/src/cl.rs:354-392 | every parameter set that passes the checks of the constructor is covered: q prime and odd, k >= 1, p one or an odd prime, p q = 3 mod 4, (p/q) = -1 |
| FSubgroup.SmallFormsAreReduced | crates/primitives/tecdsa-class-group/src/cl.rs:405-408 | when 4 q^2k <= 1 + p q, every form built is strictly reduced, abs(b) < a < c, so the final reduction leaves it alone |
| FSubgroup.PowerOfFIsReduced | crates/primitives/tecdsa-class-group/src/cl.rs:570-577 | `power_of_f` returns the reduced form, of the group discriminant, in the class of the form built from the ring parameter of m, for every integer exponent and in both regimes |
| FLogarithm.ParamRoundTrip | crates/primitives/tecdsa-class-group/src/cl.rs:854-862 | reading the parameter off the form undoes building the form from it, for every parameter in (0, q^k) |
| FLogarithm.DlogInFGeneral | crates/primitives/tecdsa-class-group/src/cl.rs:850-888 | the loop over updated cur, alpha, accumulator and q^i computes the digit-peeling specification |
| FLogarithm.DigitRead | crates/primitives/tecdsa-class-group/src/cl.rs:870-877 | every pass finds e invertible, divides by q^i exactly and reads the last base-q digit of the remaining exponent (doubled when q = 3 and i > 0) |
| FLogarithm.DigitInvertible | crates/primitives/tecdsa-class-group/src/cl.rs:879-881 | alpha^(m_i) always has an inverse modulo q^k, for any digit |
| FLogarithm.PassKeepsInvariant | crates/primitives/tecdsa-class-group/src/cl.rs:879-881 | multiplying by that inverse removes the digit: cur stays, up to one fixed unit, the power of 1 + sqrt D of the remaining exponent |
| FLogarithm.PeelExact | crates/primitives/tecdsa-class-group/src/cl.rs:864-887 | from any intermediate state the loop returns the exponent exactly when its remaining digits are readable |
| FLogarithm.DlogOfPower | crates/primitives/tecdsa-class-group/src/cl.rs:570-608 | when 4 q^2k <= 1 + p q, `dlog_in_F(power_of_f(m))` is m mod q^k if and only if q is not 3 or m mod q^k < 3 |
| FLogarithm.DlogInvertsPower | crates/primitives/tecdsa-class-group/src/cl.rs:579-608 | when 4 q^2k <= 1 + p q, the round trip holds for all exponents if and only if q is not 3 or k = 1 |
| FLogarithm.LargeMessageIff | crates/primitives/tecdsa-class-group/src/cl.rs:586-597 | `dlog_in_F` answers 0 for a = 1, and otherwise leaves the small-message path exactly when 4 q^2k > 1 + p q |
| FLogarithm.CubeFails | crates/primitives/tecdsa-class-group/src/cl.rs:876-877 | with q = 3, k = 2, p = 113, which the constructor accepts, the exponent 3 is not recovered |
| UnitPowers.LucasLink | crates/primitives/tecdsa-class-group/src/cl.rs:810-820 | 2 (1 + sqrt D)^m = 2^m (V_m + U_m sqrt D), over the integers |
| UnitPowers.LucasVUnit | crates/primitives/tecdsa-class-group/src/cl.rs:817 | V_m is a unit modulo every power of q when q divides D |
| UnitPowers.LevelHolds | crates/primitives/tecdsa-class-group/src/cl.rs:882-885 | the parameter of q^i is q^i modulo q^(i+1) for every prime above three (2 q^i for q = 3, i > 0) |
| UnitPowers.DigitOfParam | crates/primitives/tecdsa-class-group/src/cl.rs:876-877 | q^i divides the parameter of q^i c exactly and the quotient ends in the last digit of c |
| UnitPowers.ParamAddition | crates/primitives/tecdsa-class-group/src/cl.rs:810-811 | parameters add by t(m+n) (1 + t(m) t(n) D) = t(m) + t(n) modulo q^k |
| Lucas.LucasUV | crates/primitives/tecdsa-class-group/src/cl.rs:1061-1111 | the double-and-increment ladder returns U_n mod N and V_n mod N of the recurrence for every odd N > 2, any P, Q with D = P^2 - 4Q, n = 0 included |
| Lucas.NormIdentity | crates/primitives/tecdsa-class-group/src/cl.rs:1091-1096 | V_n^2 - D U_n^2 = 4 Q^n, by which the ladder may square V and subtract Q^m twice |
| QuadraticRing.RingMul | crates/primitives/tecdsa-class-group/src/cl.rs:991-1000 | reduced product, congruent to the product in Z[sqrt D] |
| QuadraticRing.RingInv | crates/primitives/tecdsa-class-group/src/cl.rs:1002-1009 | succeeds if and only if the norm is a unit modulo N, and then gives an inverse |
| QuadraticRing.RingPow | crates/primitives/tecdsa-class-group/src/cl.rs:1011-1029 | square-and-multiply from the low bit equals the exact power reduced, exponent 0 included |
| FormReduction.ReducedCorrect | crates/primitives/tecdsa-class-group/src/class_group/qfi.rs:259-319 | `reduce` ends with -a < b <= a <= c, b >= 0 on a tie, in a form that an integer substitution of determinant one takes the input to; it keeps the discriminant and fixes reduced forms |
| FormReduction.SameClassIff | crates/primitives/tecdsa-class-group/src/class_group/qfi.rs:3-7 | two positive-definite forms are properly equivalent if and only if they reduce to the same form, so equality of reduced forms is equality of classes |
| FormClasses.ReducedUnique | crates/primitives/tecdsa-class-group/src/class_group/qfi.rs:3-7 | two reduced forms that are properly equivalent are equal |
| FormReduction.MutableForm.Normalize | crates/primitives/tecdsa-class-group/src/cl.rs:966-972 | in-place normalisation computes its specification |
| FormReduction.MutableForm.RhoStep | crates/primitives/tecdsa-class-group/src/cl.rs:974-987 | one in-place rho step computes its specification |
| FormReduction.MutableForm.Reduce | crates/primitives/tecdsa-class-group/src/class_group/qfi.rs:263-319 | the in-place loop terminates on every positive-definite form, in the reduced form of its class |
| FormReduction.TrackedExactCorrect | crates/primitives/tecdsa-class-group/src/cl.rs:928-964 | the tracked numerator generates the original ideal over the reduced one through a unimodular change of basis, and (e^2 - D f^2) a = a0 (product of the 2c)^2 |
| FormReduction.ReduceTrackExact | crates/primitives/tecdsa-class-group/src/cl.rs:952-964 | the exact loop terminates on every positive-definite form and returns that numerator |
| FormReduction.ReduceTrackMod | crates/primitives/tecdsa-class-group/src/cl.rs:936-948 | the modular loop returns the exact numerator modulo q whenever q divides the discriminant |
| Lagrange.ComputeFactorial | crates/primitives/tecdsa-class-group/src/dkg_cl.rs:89-96 | n! by the loop from 2 |
| Lagrange.EveryStepExact | crates/primitives/tecdsa-class-group/src/t_cl.rs:75-84 | every interleaved division of the coefficient loop is exact, for distinct indices from 1..n in any order and delta = n! |
| Lagrange.LagrangeCoefficients | crates/primitives/tecdsa-class-group/src/t_cl.rs:69-90 | the loop with truncating divisions returns (index, coefficient) pairs in input order |
| Lagrange.CoefficientRatio | crates/primitives/tecdsa-class-group/src/t_cl.rs:61-67 | the coefficient is n! times the product of -i_j / (i_k - i_j), as an equation of integers |
| Lagrange.WeightSum | crates/primitives/tecdsa-class-group/src/t_cl.rs:61-67 | the coefficients add up to n! |
| Lagrange.Interpolation | crates/primitives/tecdsa-class-group/src/t_cl.rs:95-105 | for every integer polynomial with at most as many coefficients as indices, sum of lambda_k F(i_k) = n! F(0) |
| ClScheme.DecryptEncrypt | crates/primitives/tecdsa-class-group/src/cl.rs:692-717 | decryption inverts encryption modulo q^k for every plaintext and randomness, in the plain variant; the ciphertext is (h^r, c1^sk f^m) |
| ClScheme.AddScalEncrypts | crates/primitives/tecdsa-class-group/src/cl.rs:777-806 | `addscal` of encryptions of m_a and m_b under r_a and r_b is the encryption of m_a + s m_b under r_a + s r_b + r, group element by group element |
| ClScheme.CompactDecryptEncrypt | crates/primitives/tecdsa-class-group/src/cl.rs:692-717 | the same in the compact variant, where c1 = gamma^r lives in another group and masks are lifted by the homomorphism psi |
| ClScheme.DecryptAddScal | crates/primitives/tecdsa-class-group/src/cl.rs:777-806 | `addscal` of encryptions of m_a and m_b decrypts to m_a + s m_b modulo q^k, in the plain variant |
| ClScheme.CompactDecryptAddScal | crates/primitives/tecdsa-class-group/src/cl.rs:777-806 | the same in the compact variant |
| ThresholdCl.FinalDecrypt | crates/primitives/tecdsa-class-group/src/t_cl.rs:109-164 | the loops compute the decrypted value from any list of distinct partial decryptions |
| ThresholdCl.MaskCancels | crates/primitives/tecdsa-class-group/src/t_cl.rs:142-151 | the plaintext element is f^(m delta^2): all powers of c1 cancel |
| ThresholdCl.FinalDecryptCorrect | crates/primitives/tecdsa-class-group/src/t_cl.rs:92-164 | any t or more honest partial decryptions give m mod q when n < q and 0 when n >= q; the plaintext itself is returned if and only if 0 <= m < q and (n < q or m = 0) |
| ThresholdCl.FinalDecryptOfEncrypt | crates/primitives/tecdsa-class-group/src/t_cl.rs:47-164 | a ciphertext made by `encrypt` comes back as its plaintext |
| DkgCl.DigitCount | crates/primitives/tecdsa-class-group/src/dkg_cl.rs:72-87 | a value has at most c base-q digits if and only if it is below q^c |
| DkgCl.DecomposeQAry | crates/primitives/tecdsa-class-group/src/dkg_cl.rs:46-58 | the dividing loop returns the base-q digits, [0] for zero |
| DkgCl.RecomposeQAry | crates/primitives/tecdsa-class-group/src/dkg_cl.rs:62-70 | recomposition evaluates the digits at q |
| DkgCl.NumChunksForBound | crates/primitives/tecdsa-class-group/src/dkg_cl.rs:74-87 | the count is the least number of digits, at least one, that covers the bound |
| DkgCl.GeometricClosedForm | crates/primitives/tecdsa-class-group/src/dkg_cl.rs:112-122 | (n^t - n)/(n - 1) is an exact division and equals the geometric sum |
| DkgCl.ShareMagnitudeBound | crates/primitives/tecdsa-class-group/src/dkg_cl.rs:111-124 | for n >= 2 and t >= 1 the bound satisfies (n - 1)(bound - n! sk_bound) = (n^t - n) sk_bound; for n < 2 or t <= 1 it is n! sk_bound |
| DkgCl.ShareBelowBound | crates/primitives/tecdsa-class-group/src/dkg_cl.rs:98-110 | every share at a point up to n of a polynomial with secret and coefficients in [0, B) stays within the bound |
| DkgCl.BoundAttained | crates/primitives/tecdsa-class-group/src/dkg_cl.rs:98-124 | the bound is tight: a sharing polynomial with secret and coefficients below b takes it, for sk_bound = b - 1, at the last point |
| DkgCl.ShamirShares | crates/primitives/tecdsa-class-group/src/dkg_cl.rs:134-163 | the evaluation loops return F(1), ..., F(n) over the integers |
| DkgCl.ChunkShare | crates/primitives/tecdsa-class-group/src/dkg_cl.rs:241-256 | chunking refuses exactly the shares of magnitude q^num_chunks or more, and otherwise pads without changing the value |
| DkgCl.GenChunks | crates/primitives/tecdsa-class-group/src/dkg_cl.rs:222-256 | the refusal is unreachable for all n and 1 <= t <= n, and the chunks recompose to the share |
| DkgCl.RevealedShare | crates/primitives/tecdsa-class-group/src/dkg_cl.rs:533-556 | honest dealers with non-negative secrets and a chunk count that covers the share bound: the revealed share at point i is the sum of the F_j(i) over the integers |
| DkgCl.Aggregate | crates/primitives/tecdsa-class-group/src/dkg_cl.rs:620-646 | the loops compute the multi-exponentiation of the shares by the Lagrange coefficients |
| DkgCl.AggregateKey | crates/primitives/tecdsa-class-group/src/dkg_cl.rs:598-646 | any t or more elements h^(sum F_j(i)) aggregate to h^((n!)^2 sum of secrets) |
| DkgCl.DkgEndToEnd | crates/primitives/tecdsa-class-group/src/dkg_cl.rs:209-646 | dealing, revealing and aggregating composed, with any chunk count that covers the share bound: every share fits, and any t or more parties get h^((n!)^2 sum of the dealt secrets) |
| DkgReveal.Reveal | crates/primitives/tecdsa-class-group/src/dkg_cl.rs:511-572 | the loops return the combined share, h to its power and the homomorphically combined ciphertext; the key range check is the only failure |
| DkgReveal.CombinedDecrypts | crates/primitives/tecdsa-class-group/src/dkg_cl.rs:527-563 | the combined ciphertext decrypts to the combined share modulo the order of f, whatever integers the dealers encrypted |
| DkgReveal.CombinedOpens | crates/primitives/tecdsa-class-group/src/dkg_cl.rs:599-612 | for chunks in the plaintext range c2 (c1^sk)^-1 is exactly f^share, the statement the decryption proof is about |
| Pvss.DealShares | crates/primitives/tecdsa-class-group/src/pvss.rs:79-90 | the reduced evaluation loop gives shares congruent to F(i), in [0, q) for non-negative coefficients |
| Pvss.ComputeLambda | crates/primitives/tecdsa-class-group/src/pvss.rs:141-165 | the coefficient by num den^(q-2) mod q |
| Pvss.LambdaIsCoefficient | crates/primitives/tecdsa-class-group/src/pvss.rs:141-165 | it is the integer coefficient divided by n! modulo q, for q prime and n < q |
| Pvss.Reconstruct | crates/primitives/tecdsa-class-group/src/pvss.rs:134-171 | the loop returns the weighted sum modulo q, in [0, q) for non-negative shares |
| Pvss.SharesDetermineSecret | crates/primitives/tecdsa-class-group/src/pvss.rs:129-171 | shares congruent to F(i) at any t or more distinct points combine to F(0) modulo q |
| Pvss.DealThenReconstruct | crates/primitives/tecdsa-class-group/src/pvss.rs:66-171 | dealing a secret in [0, q) and reconstructing from any t or more points returns it |
| ScaledDecrypt.AggregateComponents | crates/primitives/tecdsa-class-group/src/scaled_decrypt.rs:113-124 | both accumulator loops give the products of the components |
| ScaledDecrypt.Aggregate | crates/primitives/tecdsa-class-group/src/scaled_decrypt.rs:126-134 | the accumulator loop gives the product |
| ScaledDecrypt.ScaledDecryptLocal | crates/primitives/tecdsa-class-group/src/scaled_decrypt.rs:137-147 | the result is the logarithm in F of the product of all contributions |
| ScaledDecrypt.SharesMultiplyToProduct | crates/primitives/tecdsa-class-group/src/scaled_decrypt.rs:49-68 | all powers of h and pk cancel across any number of parties: the contributions multiply to f^(sum a_j sum b_j) |
| ScaledDecrypt.ScaledDecryptCorrect | crates/primitives/tecdsa-class-group/src/scaled_decrypt.rs:52-147 | the result is (sum a_j)(sum b_j) modulo q^k |
| SquareRoots.SqrtMod | crates/core/tecdsa-bigint/src/ext.rs:441-493 | for every odd prime and every integer: a root in [0, p) exactly when a is a non-zero square modulo p, by loops that terminate |
| SquareRoots.LeastSquarings | crates/core/tecdsa-bigint/src/ext.rs:474-479 | the inner search stops with 0 < i < m_val at the order of t |
| SquareRoots.TonelliStep | crates/core/tecdsa-bigint/src/ext.rs:480-491 | one pass keeps r^2 = t a and c of order 2^m_val, with m_val replaced by i |
| SquareRoots.ExponentUnreduced | crates/core/tecdsa-bigint/src/ext.rs:480-487 | the exponent 2^(m_val - i - 1) is smaller than p - 1, so reducing it changes nothing |
| SquareRoots.FindResidueCorrect | crates/core/tecdsa-bigint/src/ext.rs:551-576 | for a product of two Blum primes and w of symbol -1: a result exists if and only if y is coprime to n, and then it is (-1)^a w^b y and a square modulo both primes |
| SquareRoots.BlumExponentExact | crates/core/tecdsa-bigint/src/ext.rs:540 | ((p-1)(q-1) + 4) / 8 is an exact division |
| SquareRoots.BlumSqrtCorrect | crates/core/tecdsa-bigint/src/ext.rs:539-545 | the power of a residue is a square root of it and again a residue |
| SquareRoots.FourthRootOfTwist | crates/core/tecdsa-bigint/src/ext.rs:547-576 | the fourth root of the twisted y satisfies x^4 = (-1)^a w^b y modulo n |
| MultiExp.MultiExp | crates/core/tecdsa-bigint/src/ext.rs:388-438 | interleaved 4-bit windows compute the product of base^exponent modulo every N > 1, for any bases, any number of them, all-zero exponents included |
| MultiExp.WindowDigit | crates/core/tecdsa-bigint/src/ext.rs:426-431 | the four-bit digit splits e >> shift as 16 (e >> (shift + 4)) + d |
| Residues.EulerCriterion | crates/core/tecdsa-bigint/src/ext.rs:442-444 | the symbol is congruent to a^((p-1)/2): proved from Fermat by counting roots, and used wherever `jacobi` is |
| Primes.Invert | crates/primitives/tecdsa-class-group/src/cl.rs:817 | the modular inverse exists if and only if the residue is a unit, and lies in (0, m) |
| Primes.Fermat | crates/primitives/tecdsa-class-group/src/pvss.rs:159-163 | a^(p-1) = 1 modulo p for every a not divisible by the prime p |
| PrimeSieve.SmallOddPrimes | crates/core/tecdsa-bigint/src/prime.rs:30-47 | exactly the odd primes below the limit, in increasing order |
| PrimeSieve.InvMod | crates/core/tecdsa-bigint/src/prime.rs:50-60 | in 64-bit words without overflow, the inverse of x modulo an odd prime below 2^32 |
| PrimeSieve.MarkSieve | crates/core/tecdsa-bigint/src/prime.rs:114-138 | marks j, in place and without 64-bit overflow, exactly when some listed prime divides base + 2j or a (base + 2j) + 1; earlier marks stay |
| PrimeSieve.SieveWindow | crates/core/tecdsa-bigint/src/prime.rs:105-138 | the fresh bitmap marks j exactly when some listed prime divides base + 2j or a (base + 2j) + 1 |
| PrimeSieve.SearchWindow | crates/core/tecdsa-bigint/src/prime.rs:91-101 | the sequential scan returns the first surviving position that passes the test |
| PrimeSieve.SearchWindowPar | crates/core/tecdsa-bigint/src/prime.rs:190-233 | the chunked sieve merged by OR and the first-match search give the sequential answer for every thread count, and panic exactly on an empty prime list |
| Codec.Encode | crates/framework/tecdsa-wire/src/codec.rs:19-36 | appending the parts gives preamble, little-endian version, big-endian header length, header, payload; the size error cannot occur |
| Codec.EncodedLayout | crates/framework/tecdsa-wire/src/codec.rs:19-36 | the encoded bytes position by position: MPCE, version 1 little-endian, header length 40 big-endian, session id, protocol id, round, from, to, payload |
| Codec.DecodedLayout | crates/framework/tecdsa-wire/src/codec.rs:53-86 | what the decoder answers to any bytes, byte by byte: which test fails first and with which error, and otherwise every header field and where the payload starts |
| Codec.HeaderRoundTrip | crates/framework/tecdsa-wire/src/codec.rs:80-83 | the 40-byte header encoding is undone by the header decoder, which reads the first 40 bytes and needs no more |
| Codec.DecodeEncoded | crates/framework/tecdsa-wire/src/codec.rs:19-86 | decoding inverts encoding for every header and every payload whose own encoding round-trips |
| Codec.DecodeOkIff | crates/framework/tecdsa-wire/src/codec.rs:54-86 | data decodes to (h, p) if and only if it is an envelope of h, possibly with ignored bytes after the 40 header bytes, whose payload decodes to p |
| Codec.EncodedInjective | crates/framework/tecdsa-wire/src/codec.rs:19-36 | two messages with the same bytes are the same message |
| Codec.TruncatedEnvelope | crates/framework/tecdsa-wire/src/codec.rs:54-78 | an envelope cut anywhere before the end of its header is refused, with the error of the place it is cut |
| Network.InMemoryNetwork.Send | crates/framework/tecdsa-transport/src/in_memory.rs:91-115 | one message appended to a known mailbox, dropped otherwise, counted in any case |
| Network.InMemoryNetwork.Broadcast | crates/framework/tecdsa-transport/src/in_memory.rs:117-147 | every mailbox but the sender's gets the message once, whatever order the mailboxes are visited in |
| Network.InMemoryNetwork.Receive | crates/framework/tecdsa-transport/src/in_memory.rs:149-154 | hands over the mailbox and empties it; nothing for an unknown party |
| Network.PostAll | crates/framework/tecdsa-transport/src/in_memory.rs:118-139 | the loop over an arbitrary key order gives one well-defined result |
| Network.Lossless | crates/framework/tecdsa-transport/src/in_memory.rs:91-154 | over every run, what a party was handed followed by what waits is what was posted to it, in order |
| Network.TrafficBalances | crates/framework/tecdsa-transport/src/in_memory.rs:17-32 | over every run, sent, received and total counters agree in bytes and in messages |
| Network.CountersExact | crates/framework/tecdsa-transport/src/in_memory.rs:91-154 | over every run, each counter of each party grows by exactly what it sent (a broadcast once for each other mailbox) or what was sent to it |
| Runner.SessionRunner.StepEncode | crates/framework/tecdsa-session/src/runner.rs:72-96 | encodes every drained message under the round after draining and counts it |
| Runner.EncodedExactly | crates/framework/tecdsa-session/src/runner.rs:76-93 | the i-th envelope goes to the recipient of the i-th drained message, with this party as sender, the round after draining and 0xFFFF or the recipient as `to`; the counters grow by that many messages |
| Runner.SessionRunner.DecodeOne | crates/framework/tecdsa-session/src/runner.rs:102-157 | one message: counted, decoded, validated in order, checked for duplicates, delivered or buffered or dropped |
| Runner.MessageError | crates/framework/tecdsa-session/src/runner.rs:106-149 | for every message: refused for its envelope, a header field, a triple seen before or a machine that refuses it now, with that error, and for nothing else |
| Runner.MessageEffect | crates/framework/tecdsa-session/src/runner.rs:103-156 | for every message: what is counted and remembered, and that the machine handles it in its round, or ahead of it when two parties are in session and `to` is not 0xFFFF; that it is queued for a later round; that a past one changes nothing |
| Runner.BatchAppend | crates/framework/tecdsa-session/src/runner.rs:102-157 | a batch is read in order and not beyond its first error |
| Runner.SessionRunner.StepDecode | crates/framework/tecdsa-session/src/runner.rs:101-171 | the batch in order up to the first error, then the buffer of the round reached |
| RunnerLedger.EveryMessageAccounted | crates/framework/tecdsa-session/src/runner.rs:72-171 | over every error-free run of `step_encode` and `step_decode` calls, in any order, of a machine whose round never decreases: a log of drains, arrivals and hand-overs, call by call, replays to the machine; every input arrives once under a distinct (from, round, to), is delivered, kept or dropped as its round demands at that moment (dropped only when its round is past), and round by round what was kept is handed over in order, not before its round, or still waits |
| RunnerLedger.NoDuplicates | crates/framework/tecdsa-session/src/runner.rs:134-142 | two messages of an error-free run never carry the same triple, nor the same bytes |
| RunnerLedger.CallHandsOver | crates/framework/tecdsa-session/src/runner.rs:158-170 | a `step_decode` whose batch has no error hands the buffer of the round reached, in order, to the machine, empties it and no other, and fails exactly when the machine refuses one of these |
| RunnerLedger.HandedOverIff | crates/framework/tecdsa-session/src/runner.rs:143-167 | over an error-free run, the messages waiting for a round are handed over, all and in order, if and only if some `step_decode` ends its batch with the machine in that round; otherwise all still wait |
| RunnerLedger.StrandedForever | crates/framework/tecdsa-session/src/runner.rs:150-170 | a message buffered for a round the machine has left is never delivered, whatever is called and arrives later |
| RunnerLedger.SkippedRoundStrands | crates/framework/tecdsa-session/src/runner.rs:143-167 | three parties and a machine that goes from round one to round three: without any error, a message of round two ends stranded |
| SessionLedger.EveryRunnerAccounted | crates/framework/tecdsa-session/src/sync_session.rs:118-249 | in every wire session of such a machine, for every round limit, the calls made on each runner that has not failed form a run with such a log |
| SessionLedger.SessionExplained | crates/framework/tecdsa-session/src/sync_session.rs:157-248 | over every wire session of any machines: each runner is where its calls lead, each result is the error of its run or what a machine found done finishes with, and with distinct known parties each mailbox together with what its owner has read is exactly what the calls of all parties addressed to it |
| SessionLedger.ResultStaysForever | crates/framework/tecdsa-session/src/sync_session.rs:164-167 | a party that has its result keeps it and is left alone in every later round |
| SessionLedger.DoneIsSettled | crates/framework/tecdsa-session/src/sync_session.rs:208-240 | after every round, whoever has no result has a machine that is not done |
| SessionLedger.ToySessionAccounted | crates/framework/tecdsa-session/src/sync_session.rs:118-249 | in a toy session that finishes, every party has accepted exactly one broadcast of each of the two rounds from each other party, and its buffer is empty |
| ToyDkg.ToyDkgMachine.Handle | crates/framework/tecdsa-testkit/src/toy_dkg.rs:75-107 | the handler computes its specification whatever order the hash map is read in |
| ToyDkg.HoldsWhatOpened | crates/framework/tecdsa-testkit/src/toy_dkg.rs:75-96 | after any messages, honest or not, the machine holds of every party its last commitment and the last secret that it revealed while committed to its hash, and no other secret |
| ToyDkg.HistoryDecides | crates/framework/tecdsa-testkit/src/toy_dkg.rs:75-107 | after any messages, round, outbox and result are functions of the history: round two once all others have committed, the result at the last reveal at which all others had opened their commitments, made of what they opened |
| ToyDkg.ReadValues | crates/framework/tecdsa-testkit/src/toy_dkg.rs:97 | any reading order yields the same multiset of values |
| ToyDkg.SortedForgetsOrder | crates/framework/tecdsa-testkit/src/toy_dkg.rs:97-100 | lexicographic sorting depends on the multiset of secrets alone |
| ToyDkg.OrderedUnique | crates/framework/tecdsa-testkit/src/toy_dkg.rs:99 | an ordered list is determined by its contents |
| ToyDkg.BeforeIs | crates/framework/tecdsa-testkit/src/toy_dkg.rs:99 | the order of secrets: a prefix comes first, otherwise the first differing byte decides |
| Drivers.Orchestrator.Run | crates/framework/tecdsa-testkit/src/orchestrator.rs:160-313 | the routing loops compute the round function, stopping at the first failing handler; the outputs are those of the conversation in which every machine on its own is drained and handles, round by round, what it hears |
| Drivers.RoundIsHeard | crates/framework/tecdsa-testkit/src/orchestrator.rs:185-283 | one round, for any ids: machine j handles exactly the messages addressed to its id (when no later machine has it too) and the broadcasts of the others, in sending order, each under its sender, and the round fails exactly when one of the machines does |
| ToyRuns.OrchestratorAgrees | crates/framework/tecdsa-testkit/src/orchestrator.rs:160-313 | for every n >= 2 with distinct ids: with two or more rounds every party outputs the hash of the sorted secrets, with fewer none finishes |
| ToyRuns.LonePartyNeverFinishes | crates/framework/tecdsa-testkit/src/toy_dkg.rs:76-87 | under the orchestrator a session of one party never finishes |
| ToyWire.LonePartyExceedsLimit | crates/framework/tecdsa-session/src/sync_session.rs:240-246 | over the wire a session of one party reports the exceeded limit, whatever the limit |
| WireDriver.RunMultiPartySync | crates/framework/tecdsa-session/src/sync_session.rs:118-249 | the three-phase loop over runner objects and the shared network computes the session function |
| WireDriver.CarriedDelivers | crates/framework/tecdsa-session/src/sync_session.rs:172-181 | handing one party's messages to the network extends every mailbox by exactly those addressed to its owner and the broadcasts of others, in order, under the sender's id |
| WireDriver.SendingDelivers | crates/framework/tecdsa-session/src/sync_session.rs:163-187 | the same for a whole sending phase; parties with a result send nothing |
| SessionRounds.RoundIs | crates/framework/tecdsa-session/src/sync_session.rs:163-240 | one whole round for each party and each mailbox on its own: who is drained, who reads what, whose error becomes its result, who finishes and with what last messages, and what every mailbox holds afterwards |
| SessionRounds.RunIsRounds | crates/framework/tecdsa-session/src/sync_session.rs:157-161 | a session is exactly that many rounds: stopping early when every party has its result changes nothing |
| SessionRounds.IdleForever | crates/framework/tecdsa-session/src/sync_session.rs:157-246 | a session in which nothing is left to send, read or hand over stands still, whatever the round limit: whoever has no result never gets one |
| PingPong.MatchEnds | crates/framework/tecdsa-session/tests/toy_dkg_sync.rs:120-242 | the two-party ping-pong session, for any two ids: the responder finishes if and only if its id is not 0xFFFF, the initiator if and only if neither id is; whoever does not finish exceeds the round limit |
| ToyWire.WireAgrees | crates/framework/tecdsa-session/src/sync_session.rs:118-249 | over envelopes and the in-memory network: with two or more rounds every party returns the hash of the sorted secrets, with fewer every party reports the exceeded limit |
| ToyWire.DriversAgree | crates/framework/tecdsa-session/src/sync_session.rs:118-249 | the two drivers succeed for the same parties and round limits and give the same outputs |

## Left out

- FLogarithm.DlogInFGeneral: a form with j = 0 or j > k, or whose coefficients are not divisible as the code expects, gives `Failed`; the values the big-integer library computes there are unspecified.
- FLogarithm.DlogOfPower: the large-message regime is one outcome, `LargeMessage`; its k = 1 branch needs the go-up map of forms, of which only the generator-tracking loops are modelled.
- SquareRoots.SqrtMod: the modulus is an odd prime, for which `jacobi` is the Legendre symbol; composite moduli, on which the inner loop may not end, are not covered.
- PrimeSieve.SearchWindow: the base and the outcome of the primality test are inputs; drawing fresh bases until one succeeds is not modelled, nor its running time.
- PrimeSieve.SmallOddPrimes: sizes are unbounded, so the machine-word overflow of i * i for limits beyond any memory is not modelled.
- Network.InMemoryNetwork.FromPartyIds: counters are unbounded integers; the party count is the 16-bit cast of the list length and is used by nothing else.
- WireDriver.RunMultiPartySync: the per-runner configuration fields for timeouts, retries and checkpoints are not modelled.
- ToyDkg.ToyDkgMachine.Handle: n = 0 follows release-mode wrap-around of n - 1; debug builds panic there.
- SHA-256 is an arbitrary function to 32 bytes; nothing depends on collisions, and hiding or binding of commitments is not stated.
- The payload encoding of messages is any encoding that its decoder inverts; the general serialisation library is not part of this model.
- Composition of forms, the generator h, fixed-base combs and the maps between the class groups of the two orders: the class groups are abstract groups in the protocol theorems, and psi is any homomorphism.
- Zero-knowledge proofs, commitments to polynomials, encryption of the PVSS shares.
- Probabilistic primality tests, random sampling and distributions.
- Byte and string conversions, serialisation helpers, parameter tables and curve adapters.
- The asynchronous session, timeouts, retries, checkpoints, communication statistics and timing of the orchestrator.
