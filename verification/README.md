# Verified models of Resid's arithmetic generators and benchmark algorithms

A Dafny 4.11 project that models seven pieces of the Resid repository and proves what each is for.

1. **RSA private-key arithmetic** (`tools/gen_rsasign.py`): masked subtraction, Montgomery reduction on one wide word,
   Newton inversion, doublings, the masked-swap ladder, Garner recombination and the entry of `rsa_pkcs1_sign`
   (section 5.2.1 of RFC 8017). Generic in the size class. Files `Arith`, `Words`, `NumberTheory`, `Octets`, `Rsa`, `RsaSign`.
2. **NIST prime curves** (`tools/gen_nistp.py`): the guarded subtraction, the Montgomery field and scalar layers,
   fixed-exponent powers, complete formulas, ladder, SEC 1 encoding, ECDH and ECDSA. Generic in K, W, the moduli and the
   curve, under the relations the renderer asserts. `NistChord` and `NistCurve` prove the complete formulas to be the
   textbook's chord and tangent for all points, and `NistKeys` states keys, ECDH and ECDSA in those terms. Files `Nist*`.
3. **The red-black tree and the collision detector's state** (`cd.rs`): a class over an arena of index-linked nodes. Every
   method carries a ghost focus (a tree in a context) that the links represent. Files `RedBlack*`, `RbtArena`, `Rbt`, `Detector`.
4. **Havlak loop recognition** (`havlak.rs`): graph, search intervals, `find_set` as written, pools, loops and nesting
   levels, and what all of it says about the paths of the graph. Files `Havlak*`.
5. **The DeltaBlue solver** (`deltablue.rs`): override chains, propagation, removal, plans and the chain test. Files `DeltaBlue*`.
6. **The Richards scheduler** (`richards.rs`): a machine over lists (`RichardsMachine`, `RichardsLaws`, `RichardsWork`),
   its priorities (`RichardsPriority`), why its runs end (`RichardsEnds`), and the arena of linked packets that refines it
   (`RichardsLinks`, `Richards`).
7. **The JSON parser** (`json.rs`): a grammar of laid-out documents (`JsonGrammar`), what the parser computes
   (`JsonReading`, `JsonQuote`), the object table (`JsonObject`) and the class with its captures (`Json`).

Code that updates state is a class with the source's fields; its methods are proved against functions on values, and the
promises are lemmas about those functions or state kept by every method. Ghost parameters and fields (a tree focus, a
rank, the order of evaluation) have no counterpart in the source. Every method ends: loops and recursions carry measures.

## Where the code and its comments differ

The models follow the code; each point below is a proved statement.

- "Two subtractions cover T up to 3pR" (`tools/gen_rsasign.py:67-68`) is not so: `RsaHalf.RedcUnreduced` is an instance,
  `RsaHalf.RedcReducedIff` the exact condition. T < 2pR, the other bound stated there, is enough, and the entry guarantees it.
- The signing entry is documented to return nothing when the primes differ in bit length
  (`tools/gen_rsasign.py:163-167`). The check compares byte lengths, and `RsaSign.DifferentBitsSigned` says that such a
  key is signed. Equal bit lengths give q < 2p (`SameBitsFit`), which is enough; the masked difference is right for all
  residues exactly when q <= 2p + 1 (`DiffAllIff`). Beyond that a wrong result is withheld (`SignReleasesVerified`).
- `find_set` hooks path nodes to the starting node's parent (`havlak.rs:98-100`). On a path of three or more links that
  parent becomes a root: `HavlakSets.HookedRoot`. `HavlakCollapse.HookedCollapsed` and `HavlakRun.KindExactly` say what
  holds all the same; while no path is hooked, which is so on every graph without three loop bodies nested in each
  other, pools, headers and kinds are those of the graph's own paths (`HavlakRun.BodyExactly`, `HeaderExactly`).
- "The set may grow while it is walked" (`havlak.rs:161`): the list walked belongs to a pool member and the one that
  grows to the header, so it never does (`Havlak.Finder.StepMember`).
- `nonzero` is documented for values below 2^(W-1) (`tools/gen_nistp.py:195-196`); it is right for all words.
- `scalar_ok` is documented as 1 <= d < n; it also accepts words from n + 2^(W-1) up (`NistAffine.ScalarOkIff`), which no
  loaded byte string reaches (`NistEncode.LoadedScalar`).
- `bits2int` is documented as the leftmost K bits reduced modulo n. It takes whole bytes, so for a 66-byte digest and
  P-521 the value may exceed 2n and stay unreduced: `NistSign.WideDigest`; `NistSign.Bits2IntIff` is the condition.
- `inputs_known` looks at one of a scale constraint's three inputs (`deltablue.rs:126-131`). `DeltaBluePlan.StaleScale`
  is a settled network, given outright, whose plan runs a scale before its factor is computed;
  `DeltaBluePlan.PlanFinalIff` says exactly which plans read only final values, and `PlanHolds` that those are right.
- Looking a name up in a JSON object fails for a name that another of the same length modulo 32 follows
  (`json.rs:11-23`): `JsonReading.LostName` is a document, `JsonObject.GetIff` the exact condition.

## Model

| member | source | states |
|---|---|---|
| `Octets.LoadValue` | tools/gen_rsasign.py:117-125 | reading big-endian bytes into a word wide enough for them gives their OS2IP value |
| `Octets.I2ospValue` | tools/gen_rsasign.py:127-130 | the n bytes written are the low 8n bits of the number, and reading them back gives those bits |
| `Octets.I2ospOfBytes` | tools/gen_rsasign.py:127-130 | writing the value of a byte string in as many bytes gives the string back |
| `RsaHalf.SelValue` | tools/gen_rsasign.py:58-59 | the exclusive-or select under an all-ones or zero mask is a choice between its two words |
| `RsaHalf.CsubValue` | tools/gen_rsasign.py:61-65 | for t, p below half the word range the masked subtraction is t - p when t >= p and t otherwise |
| `RsaHalf.CsubReducesIff` | tools/gen_rsasign.py:61-65 | one masked subtraction gives t mod p if and only if t < 2p |
| `RsaHalf.RedcExact` | tools/gen_rsasign.py:67-73 | for T < 3pR no step of the reduction wraps: it is exact arithmetic followed by two masked subtractions |
| `RsaHalf.RedcValue` | tools/gen_rsasign.py:67-73 | for T < 2pR the reduction is exactly T R^-1 mod p |
| `RsaHalf.RedcReducedIff` | tools/gen_rsasign.py:67-73 | for T up to 3pR the result is below p if and only if T plus the multiple of p that clears its low bits stays below 3pR |
| `RsaHalf.RedcUnreduced` | tools/gen_rsasign.py:67-68 | a concrete T below 3pR that comes out not reduced, against the comment that two subtractions cover T up to 3pR |
| `RsaHalf.MontValue` | tools/gen_rsasign.py:75-77 | the Montgomery product of a < p and any b < 2R is a b R^-1 mod p, in either order |
| `RsaHalf.MontForms` | tools/gen_rsasign.py:75-77 | Montgomery forms multiply: the product of x R and y R is x y R mod p |
| `RsaHalf.NewtonDoubles` | tools/gen_rsasign.py:79-85 | with wrap and mask, one step turns e right low bits of p^-1 into 2e (at most K) |
| `RsaHalf.NewtonRight` | tools/gen_rsasign.py:79-85 | from e right bits, i steps with e 2^i >= K and the final negation give x with p x = -1 mod R |
| `RsaHalf.PinvConstants` | tools/gen_rsasign.py:106-108 | twelve steps from 1 give -p^-1 mod 2^K for every odd p of up to 4096 bits |
| `RsaHalf.DoubledValue` | tools/gen_rsasign.py:87-91 | n masked doublings of r < p give exactly r 2^n mod p |
| `RsaHalf.LadderStep` | tools/gen_rsasign.py:95-104 | a masked-swap step takes the forms of (x^e, x^(e+1)) to those of (x^(2e+bit), x^(2e+bit+1)) |
| `RsaHalf.LadderPowers` | tools/gen_rsasign.py:95-104 | over any n low bits of d the ladder keeps the pair of consecutive powers, the exponent being the bits read so far |
| `RsaHalf.EnterForm` | tools/gen_rsasign.py:109-111 | multiplying a residue by R^2 mod p gives its Montgomery form |
| `RsaHalf.LeaveForm` | tools/gen_rsasign.py:114 | reducing a Montgomery form gives the residue |
| `RsaHalf.HalfValue` | tools/gen_rsasign.py:106-115 | half returns m^d mod p for every odd p of the size class and every m < 2pR, d being read over 2K bits |
| `RsaSign.DiffIff` | tools/gen_rsasign.py:144-145 | for mp < p and any mq in the word the masked difference is (mp - mq) mod p if and only if mq <= mp + 2p |
| `RsaSign.DiffAllIff` | tools/gen_rsasign.py:144-145 | the difference is right for all residues of p and q if and only if q <= 2p + 1 |
| `RsaSign.GarnerFactor` | tools/gen_rsasign.py:146 | the two Montgomery products give (mp - mq) q^-1 mod p |
| `RsaSign.GarnerCong` | tools/gen_rsasign.py:144-147 | the recombined number is mp modulo p and mq modulo q |
| `RsaSign.GarnerBound` | tools/gen_rsasign.py:147 | the recombined number is below pq and nothing wraps in UInt(2K+64) |
| `RsaSign.GarnerValue` | tools/gen_rsasign.py:144-147 | from the two residues of x the recombination gives exactly x mod pq, for every q <= 2p + 1 |
| `RsaSign.CrtValue` | tools/gen_rsasign.py:132-147 | two half exponentiations with the whole of d and the recombination give m^d mod pq |
| `RsaSign.EmFits` | tools/gen_rsasign.py:170-176 | an encoding that begins 00 01, a top byte of p that is not zero and the length checks give m < 2pR, even for a p shorter than the class |
| `RsaSign.SignEmValue` | tools/gen_rsasign.py:132-150 | on a key pair of an accepted size sign_em writes exactly EM^d mod n in k bytes |
| `RsaSign.RsaInverts` | tools/gen_rsasign.py:20-21 | for primes p, q and e d = 1 modulo p - 1 and q - 1, (m^d mod n)^e = m modulo n for every m |
| `RsaSign.NotRefused` | tools/gen_rsasign.py:170-172 | the entry checks accept every key pair of 128 to 512 bytes |
| `RsaSign.SignatureVerifies` | tools/gen_rsasign.py:132-150 | the signature is below n and raising it to e gives the encoded message back, byte for byte |
| `RsaSign.SignAccepted` | tools/gen_rsasign.py:163-179 | for every key pair the entry returns the k-byte signature of section 5.2.1 of RFC 8017, and it verifies |
| `RsaSign.SameBitsFit` | tools/gen_rsasign.py:163-167 | primes of equal bit length, which the comment asks for, have q < 2p |
| `RsaSign.DifferentBitsRight` | tools/gen_rsasign.py:132-147 | with p = 3 and q = 7, of different bit lengths, the recombination is m^d mod 21 for every m and d |
| `RsaSign.DifferentBitsSigned` | tools/gen_rsasign.py:163-179 | a key pair of primes of different bit length is signed all the same, and the signature verifies |
| `RsaSign.SignReleasesVerified` | tools/gen_rsasign.py:163-179 | for any arguments at all, what is returned is empty or verifies under (n, e) and has the length of n |
| `NistField.BlendValue` | tools/gen_nistp.py:209-213 | the two masked halves put together choose one of two words by a bit |
| `NistField.CsubValue` | tools/gen_nistp.py:204-214 | with the guard bit, u < m + 2^(K+8) gives u - m when u >= m and u otherwise |
| `NistField.CsubReducesIff` | tools/gen_nistp.py:204-214 | the guarded subtraction gives u mod m if and only if u < 2m |
| `NistField.MontExact` | tools/gen_nistp.py:216-225 | for a b < m R no step wraps, under the conditions the renderer asserts |
| `NistField.MontValue` | tools/gen_nistp.py:216-225 | for a b < m R the result is a b R^-1 mod m |
| `NistField.ValInjective` | tools/gen_nistp.py:227-255 | two reduced Montgomery words standing for one residue are equal |
| `NistField.FieldSum` | tools/gen_nistp.py:235-237 | the sum of reduced elements is reduced and exact, as words and as residues |
| `NistField.FieldDifference` | tools/gen_nistp.py:238-243 | the difference of reduced elements is reduced and exact, as words and as residues |
| `NistField.FieldProduct` | tools/gen_nistp.py:229-234 | the product is reduced and stands for the product of the residues |
| `NistField.EnterValue` | tools/gen_nistp.py:244-249 | conversion into Montgomery form keeps the residue of any word below R |
| `NistField.LeaveValue` | tools/gen_nistp.py:250-255 | conversion out of Montgomery form gives the residue, reduced |
| `NistPower.BitRead` | tools/gen_nistp.py:257-266 | bit i % 32 of word i / 32 is bit i of the exponent, for all K bits |
| `NistPower.FPowValue` | tools/gen_nistp.py:268-276 | over the low n bits of e, square and multiply gives acc^(2^n) a^(e mod 2^n) |
| `NistPower.PowerValue` | tools/gen_nistp.py:268-276 | from one, over all bits, exactly a^e for every exponent below 2^K |
| `NistPower.InverseValue` | tools/gen_nistp.py:278-283 | for prime p, a times its inverse is one for every nonzero a, and 0 maps to 0 |
| `NistPower.RootValue` | tools/gen_nistp.py:285-290 | for prime p = 3 mod 4, the root squares back to a for every a that has a root |
| `NistPoint.AddMeans` | tools/gen_nistp.py:370-395 | addition on Montgomery words computes the complete addition polynomials of the coordinates |
| `NistPoint.DoubleMeans` | tools/gen_nistp.py:397-424 | doubling on words computes the doubling polynomials of the coordinates |
| `NistPoint.DoubleIsSum` | tools/gen_nistp.py:370-424 | for every reduced point satisfying the projective curve equation doubling equals adding the point to itself, coordinate for coordinate |
| `NistPoint.AddInfinity` | tools/gen_nistp.py:345-351 | adding (0 : 1 : 0) returns the point with every coordinate scaled by its y |
| `NistPoint.AddCommutes` | tools/gen_nistp.py:370-395 | the sum is the same words whichever point comes first |
| `NistChord.ChordLaw` | tools/gen_nistp.py:370-395 | the chord law: for two points of the curve at z = 1 with differences d, e of their coordinates, X d^2 = Z (e^2 - (x + x') d^2) and Y d = e (x Z - X) - y Z d modulo p |
| `NistChord.TangentLaw` | tools/gen_nistp.py:370-395 | the tangent law for a point added to itself, with Z the cube of 2y |
| `NistChord.OppositeLaw` | tools/gen_nistp.py:370-395 | opposite points sum to (0 : Y : 0), Y being (2y)^3 times the ordinate of the double |
| `NistChord.ChordScale` | tools/gen_nistp.py:370-395 | on a chord Z is d^3 times the ordinate of the difference of the two points |
| `NistCurve.LineThird` | tools/gen_nistp.py:370-395 | a line that meets the curve twice, or touches it, meets it again at x = l^2 - x - x' |
| `NistCurve.LawClosed` | tools/gen_nistp.py:370-395 | chord and tangent stay on the curve |
| `NistCurve.SumShows` | tools/gen_nistp.py:370-395 | completeness: for every two points of a curve without points of order two the formulas give, scaled by a unit, exactly the point of chord and tangent |
| `NistCurve.SumTimes` | tools/gen_nistp.py:370-395 | the formulas are quadratic in the scale of each of their points |
| `NistCurve.ShownSum` | tools/gen_nistp.py:370-395 | the same for any projective triples of the points |
| `NistGroup.AddStands` | tools/gen_nistp.py:370-395 | under the group laws, which NistCyclic.CurveGroup derives from chord and tangent, words of k G and l G add to words of (k + l) G |
| `NistGroup.DoubleStands` | tools/gen_nistp.py:397-424 | words of k G double to words of 2k G |
| `NistGroup.LadderStands` | tools/gen_nistp.py:434-439 | over the low n bits of k the ladder takes i G and j G to (2^n i + (k mod 2^n) j) G |
| `NistGroup.MulStands` | tools/gen_nistp.py:441-446 | multiplication by any k < 2^K takes j G to (k j) G |
| `NistAffine.NonzeroValue` | tools/gen_nistp.py:195-202 | the nonzero test is right for every W-bit word |
| `NistAffine.ScalarOkIff` | tools/gen_nistp.py:544-552 | accepts exactly 1 .. n - 1 and the words from n + 2^(W-1) up |
| `NistAffine.AffineValue` | tools/gen_nistp.py:448-455 | the coordinates are x/z and y/z, and ok says exactly whether z is nonzero |
| `NistAffine.AffineSame` | tools/gen_nistp.py:448-455 | words standing for one multiple of G have one affine form, finite exactly when the multiple is not 0 mod n |
| `NistAffine.FromAffineStands` | tools/gen_nistp.py:361-368 | a finite point, made affine and brought back, stands for the same multiple and is on the curve |
| `NistAffine.IsOnCurveIff` | tools/gen_nistp.py:500-508 | true exactly for coordinates below p that satisfy y^2 = x^3 - 3x + b mod p |
| `NistCyclic.AddChord` | tools/gen_nistp.py:370-395 | the chord law for the words of two affine points |
| `NistCyclic.AddPlaces` | tools/gen_nistp.py:370-395 | addition on words is chord and tangent for every two points, infinity and equal points included, and stays on the curve |
| `NistCyclic.DoublePlaces` | tools/gen_nistp.py:397-424 | doubling on words is the tangent law |
| `NistCyclic.CyclicNoTwist` | tools/gen_nistp.py:370-395 | a curve that is cyclic of odd prime order has no point that is its own opposite but infinity |
| `NistCyclic.CurveGroup` | tools/gen_nistp.py:370-395 | when the curve is a cyclic group of order n under chord and tangent, all the group laws assumed of word formulas hold |
| `NistCyclic.MulPlace` | tools/gen_nistp.py:441-455 | the affine form of k G is the curve point of logarithm k modulo n, refused exactly for infinity |
| `NistEncode.LoadCoordAny` | tools/gen_nistp.py:465-480 | a byte string of any length loads to its value modulo 2^(8 KB) |
| `NistEncode.EncodeBytes` | tools/gen_nistp.py:537-540 | the encodings spell out form, x and y, and the compressed form the parity of y, in fixed places |
| `NistEncode.LoadCoordValue` | tools/gen_nistp.py:465-498 | a full coordinate string has its big-endian value, and storing the value gives the string |
| `NistEncode.StoreCoordValue` | tools/gen_nistp.py:481-498 | a stored coordinate has the fixed length and loads back to itself |
| `NistEncode.DecodeEncode` | tools/gen_nistp.py:513-540 | decoding the uncompressed encoding of any point of the curve gives the point |
| `NistEncode.DecodeFull` | tools/gen_nistp.py:517-522 | an 04 string is accepted exactly when it is the encoding of a point of the curve, and that is the point returned |
| `NistEncode.LiftRoot` | tools/gen_nistp.py:526-531 | the square-root check succeeds exactly when some y lies over x, and then its root does |
| `NistEncode.LiftValue` | tools/gen_nistp.py:523-535 | x is accepted exactly when a point lies over it; the y returned is on the curve with the parity asked for, or 0 |
| `NistEncode.TwoRoots` | tools/gen_nistp.py:523-535 | over one x the curve has at most y and p - y |
| `NistEncode.DecodeCompressed` | tools/gen_nistp.py:523-535 | the compressed form of every point of the curve, y = 0 included, decodes to that point |
| `NistEncode.DecodeIff` | tools/gen_nistp.py:513-540 | of all byte strings exactly the full and compressed encodings of curve points, the second form for y = 0 included, are accepted, each as its point |
| `NistEncode.LoadedScalar` | tools/gen_nistp.py:544-552 | of the words loaded from byte strings of any length the scalar test accepts exactly 1 .. n - 1 |
| `NistEncode.DecodeSound` | tools/gen_nistp.py:513-537 | every accepted string is the full or compressed encoding of the point it decodes to, which is on the curve; only y = 0 has a second compressed form |
| `NistSign.Bits2IntIff` | tools/gen_nistp.py:583-588 | the digest integer is reduced modulo n if and only if its leading bytes are below 2n |
| `NistSign.LeadValue` | tools/gen_nistp.py:583-588 | a longer digest keeps its leading bytes: its value divided by a power of two; a shorter one is kept whole |
| `NistSign.WideDigest` | tools/gen_nistp.py:583-588 | on a curve of 521 bits the 66-byte digest of all ones is taken whole and is not reduced modulo n |
| `NistSign.DigestFits` | tools/gen_nistp.py:583-588 | digests of at most K bits always qualify |
| `NistSign.ScalarInvValue` | tools/gen_nistp.py:321-327 | the inverse modulo the prime order, for every nonzero scalar |
| `NistSign.PublicStands` | tools/gen_nistp.py:554-562 | for 0 < d < n the public key is accepted, is on the curve and stands for d G |
| `NistSign.EcdhAgrees` | tools/gen_nistp.py:564-576 | both sides of a key agreement get the same bytes of the fixed length |
| `NistSign.OrderReduces` | tools/gen_nistp.py:329-331 | a coordinate below p is below 2n, so one subtraction reduces it modulo n |
| `NistSign.SignValue` | tools/gen_nistp.py:608-626 | an accepted signature has d, k, r, s in range, r the x coordinate of k G mod n, and s k = e + r d mod n |
| `NistSign.SignComplete` | tools/gen_nistp.py:608-626 | a signature is made if and only if d and k are in range and neither the x coordinate of k G nor e + r d is 0 modulo n; nothing of a refused one is released |
| `NistSign.VerifyIff` | tools/gen_nistp.py:590-603 | for r, s in range it accepts exactly when ((e + r j)/s) G is finite with x = r mod n, j being the key's multiple |
| `NistSign.SignVerifies` | tools/gen_nistp.py:583-626 | verify_digest accepts every signature sign_k produces under the matching public key, for digest values below 2n |
| `NistKeys.PublicIs` | tools/gen_nistp.py:554-562 | the public key of d is the curve point of logarithm d; every scalar out of range is refused |
| `NistKeys.EcdhIs` | tools/gen_nistp.py:564-576 | a key agreement gives the bytes of the x coordinate of the curve point of logarithm a log(Q), and nothing for a scalar out of range or a point off the curve |
| `NistKeys.SignIs` | tools/gen_nistp.py:608-626 | with Q the curve point of logarithm k: success exactly when d, k are in range and neither Q's x nor e + r d is 0 modulo n; then r is that x and s k = e + r d modulo n |
| `NistKeys.VerifyIs` | tools/gen_nistp.py:590-603 | accepts exactly when the key is on the curve, r and s are in range and some curve point U has x = r modulo n and log(U) s = e + r log(Q) modulo n |
| `NistKeys.SignedVerifies` | tools/gen_nistp.py:583-626 | every signature made verifies under the signer's public key, from the textbook group law alone |
| `RedBlackTree.InorderPlug` | bench/v2/t1-awfy/rust/src/cd.rs:265-273 | the in-order walk of a tree is that of any subtree between the entries before and after it |
| `RedBlackTree.PlugBalanced` | bench/v2/t1-awfy/rust/src/cd.rs:133-264 | a tree is balanced exactly when a subtree and its surroundings are and no red node meets a red parent between them |
| `RedBlackTree.SortedInsert` | bench/v2/t1-awfy/rust/src/cd.rs:86-106 | an entry between smaller and larger keys keeps search order |
| `RedBlackTree.ContentsSplit` | bench/v2/t1-awfy/rust/src/cd.rs:176-204 | taking one entry out of a sorted walk takes exactly its key out of the map |
| `RbtArena.RotateLeftInorder` | bench/v2/t1-awfy/rust/src/cd.rs:107-119 | a left rotation keeps the in-order walk |
| `RbtArena.RotateRightInorder` | bench/v2/t1-awfy/rust/src/cd.rs:120-132 | a right rotation keeps the in-order walk |
| `RbtArena.RotateLeftLinked` | bench/v2/t1-awfy/rust/src/cd.rs:107-119 | the net effect of left_rotate's writes links exactly the rotated tree, parent links included |
| `RbtArena.RotateRightLinked` | bench/v2/t1-awfy/rust/src/cd.rs:120-132 | the net effect of right_rotate's writes links exactly the rotated tree, parent links included |
| `RbtArena.TransplantLinked` | bench/v2/t1-awfy/rust/src/cd.rs:190-199 | after the copy of links and colour y stands in z's place with z's subtrees |
| `RedBlackPut.RedParent` | bench/v2/t1-awfy/rust/src/cd.rs:137-139 | a red parent is never the root, so the grandparent exists and is black |
| `RedBlackPut.PutRecolour` | bench/v2/t1-awfy/rust/src/cd.rs:142-146 | red uncle: recolouring moves the only possible violation to the grandparent |
| `RedBlackPut.PutInner` | bench/v2/t1-awfy/rust/src/cd.rs:148 | inner grandchild: the first rotation makes it an outer one and keeps the state |
| `RedBlackPut.PutOuter` | bench/v2/t1-awfy/rust/src/cd.rs:149-153 | outer grandchild: recolouring and rotating leaves no red node with a red parent |
| `RedBlackPut.PutDone` | bench/v2/t1-awfy/rust/src/cd.rs:172-173 | painting the root black at the end restores every law |
| `RedBlackRemove.SiblingExists` | bench/v2/t1-awfy/rust/src/cd.rs:207-209 | during the fixup the sibling w is never missing, and is one black taller than the short side |
| `RedBlackRemove.ShortRedSibling` | bench/v2/t1-awfy/rust/src/cd.rs:209-214 | case 1 leaves the same shortage with a black sibling and a red parent |
| `RedBlackRemove.ShortMoveUp` | bench/v2/t1-awfy/rust/src/cd.rs:215-218 | case 2 moves the shortage to the parent |
| `RedBlackRemove.ShortInner` | bench/v2/t1-awfy/rust/src/cd.rs:220-226 | case 3 gives the sibling a red outer child |
| `RedBlackRemove.ShortPaid` | bench/v2/t1-awfy/rust/src/cd.rs:227-231 | case 4 ends the shortage for the whole tree |
| `RedBlackRemove.ShortDone` | bench/v2/t1-awfy/rust/src/cd.rs:263 | painting x black when the loop stops restores the colour laws |
| `RedBlackRemove.SpliceHeights` | bench/v2/t1-awfy/rust/src/cd.rs:180-187 | linking past a node with at most one child lowers the black height by one exactly when the node is black |
| `RbtClass.Rbt.constructor` | bench/v2/t1-awfy/rust/src/cd.rs:56 | a new tree meets every law and is the empty map |
| `RbtClass.Rbt.LeftRotate` | bench/v2/t1-awfy/rust/src/cd.rs:107-119 | in place: links of the rotated tree, keys and values untouched |
| `RbtClass.Rbt.RightRotate` | bench/v2/t1-awfy/rust/src/cd.rs:120-132 | in place: links of the rotated tree, keys and values untouched |
| `RbtClass.Rbt.FindNode` | bench/v2/t1-awfy/rust/src/cd.rs:70-80 | the slot of the key, or NIL exactly when the map lacks it |
| `RbtClass.Rbt.Get` | bench/v2/t1-awfy/rust/src/cd.rs:81-84 | the map's value, None exactly when the key is absent |
| `RbtClass.Rbt.TreeInsert` | bench/v2/t1-awfy/rust/src/cd.rs:85-106 | a present key has its value replaced and the old one returned; a new one becomes a red leaf in search order |
| `RbtClass.Rbt.Recolour` | bench/v2/t1-awfy/rust/src/cd.rs:142-146 | in place: the walk is kept and the focus climbs two levels |
| `RbtClass.Rbt.FixLeft` | bench/v2/t1-awfy/rust/src/cd.rs:140-154 | in place: the walk is kept and no red node has a red parent afterwards |
| `RbtClass.Rbt.FixRight` | bench/v2/t1-awfy/rust/src/cd.rs:155-170 | the mirror image |
| `RbtClass.Rbt.Put` | bench/v2/t1-awfy/rust/src/cd.rs:133-175 | all red-black laws hold, the map is the old one with the key set, and the previous value is returned exactly when there was one; the loop ends |
| `RbtClass.Rbt.FixShortLeft` | bench/v2/t1-awfy/rust/src/cd.rs:207-233 | one round of the fixup with x on the left keeps walk, entries and shortage and comes closer to the end |
| `RbtClass.Rbt.FixShortRight` | bench/v2/t1-awfy/rust/src/cd.rs:234-261 | the mirror image |
| `RbtClass.Rbt.RemoveFixup` | bench/v2/t1-awfy/rust/src/cd.rs:205-264 | from a tree short at x, a balanced tree with a black root and the same walk; the loop ends |
| `RbtClass.Rbt.TreeMinimum` | bench/v2/t1-awfy/rust/src/cd.rs:58-62 | the first entry of the subtree |
| `RbtClass.Rbt.Successor` | bench/v2/t1-awfy/rust/src/cd.rs:63-69 | the next entry of the in-order walk, NIL exactly after the last |
| `RbtClass.Rbt.ForEach` | bench/v2/t1-awfy/rust/src/cd.rs:265-273 | the callback sees every entry of the map once, keys strictly increasing |
| `RbtClass.Rbt.Splice` | bench/v2/t1-awfy/rust/src/cd.rs:180-187 | in place: y is out of the tree, its only child in its place |
| `RbtClass.Rbt.TakeOut` | bench/v2/t1-awfy/rust/src/cd.rs:180-189 | y leaves the tree, with the fixup run if it was black: balanced, and the walk is the old one without y |
| `RbtClass.Rbt.Transplant` | bench/v2/t1-awfy/rust/src/cd.rs:190-199 | y takes over z's links and colour, with its own key and value |
| `RbtClass.Rbt.Replace` | bench/v2/t1-awfy/rust/src/cd.rs:190-199 | the doomed node, still in the tree after the fixup, gives its place to y: valid, and the map lacks exactly its key |
| `RbtClass.Rbt.Remove` | bench/v2/t1-awfy/rust/src/cd.rs:176-204 | all red-black laws hold, the map is the old one minus the key, and the removed value is returned exactly when there was one |
| `RbtClass.SuccessorWalk` | bench/v2/t1-awfy/rust/src/cd.rs:179 | with two children, the successor's entry follows z's in the walk |
| `RbtClass.WalkHolds` | bench/v2/t1-awfy/rust/src/cd.rs:188-199 | z is still in the tree when the fixup has run |
| `CollisionDetector.Detector.constructor` | bench/v2/t1-awfy/rust/src/cd.rs:433 | a new detector maps nothing |
| `CollisionDetector.Detector.Departed` | bench/v2/t1-awfy/rust/src/cd.rs:400-401 | exactly the callsigns of the state that the frame did not report |
| `CollisionDetector.Detector.HandleNewFrame` | bench/v2/t1-awfy/rust/src/cd.rs:391-402 | the state becomes exactly the frame's callsigns at their latest positions; the motions start where the state had them |
| `CollisionDetector.Detector.Run` | bench/v2/t1-awfy/rust/src/cd.rs:431-438 | over any sequence of frames, the motions of each frame are taken from the one before it alone |
| `CollisionDetector.MotionMeaning` | bench/v2/t1-awfy/rust/src/cd.rs:394-399 | each motion starts at the callsign's previous report in the frame, else at the state's position, else at its own |
| `CollisionDetector.LatestMeaning` | bench/v2/t1-awfy/rust/src/cd.rs:394-402 | the state has exactly the frame's callsigns, each at its last report |
| `CollisionDetector.ReportedSplit` | bench/v2/t1-awfy/rust/src/cd.rs:394-402 | putting a frame on a state changes only the callsigns the frame reports |
| `HavlakGraph.Cfg.CreateNode` | bench/v2/t1-awfy/rust/src/havlak.rs:19-26 | blocks gain exactly that name; the start is set when it is the only slot |
| `HavlakGraph.Cfg.AddEdge` | bench/v2/t1-awfy/rust/src/havlak.rs:27-33 | edges gain exactly that pair, recorded at both ends |
| `HavlakDfs.AncestorInterval` | bench/v2/t1-awfy/rust/src/havlak.rs:88 | the interval test says exactly whether v hangs below u in the search tree |
| `HavlakDfs.IntervalsNest` | bench/v2/t1-awfy/rust/src/havlak.rs:88 | two intervals [w, last[w]] are disjoint or nested |
| `HavlakDfs.AncestorReaches` | bench/v2/t1-awfy/rust/src/havlak.rs:104-114 | a tree ancestor reaches its descendants along edges |
| `HavlakDfs.NumberedReachable` | bench/v2/t1-awfy/rust/src/havlak.rs:104-114 | the numbered blocks are exactly those the start reaches |
| `HavlakSets.HungRoot` | bench/v2/t1-awfy/rust/src/havlak.rs:183-184 | hanging some roots from w gives w to everything they were roots of and moves no other root |
| `HavlakSets.HookedForest` | bench/v2/t1-awfy/rust/src/havlak.rs:90-102 | find_set's hooking never makes a cycle |
| `HavlakSets.HookedRoot` | bench/v2/t1-awfy/rust/src/havlak.rs:90-102 | the root of the starting node is kept if and only if its path has at most two links; on longer paths its parent becomes its own root |
| `HavlakCollapse.HookedCollapsed` | bench/v2/t1-awfy/rust/src/havlak.rs:90-102 | find_set keeps the collapse invariant, and its answer lies on a common cycle with the argument and in the same subtrees of all uncollapsed headers |
| `HavlakCollapse.PoolCollapsed` | bench/v2/t1-awfy/rust/src/havlak.rs:182-184 | hanging the pool from its header carries the invariant on to the next header |
| `HavlakLsg.WithParentNested` | bench/v2/t1-awfy/rust/src/havlak.rs:53-56 | setting a parent keeps the loop forest free of cycles, even when a loop ends up listed by two |
| `HavlakLsg.HeightLaw` | bench/v2/t1-awfy/rust/src/havlak.rs:66-75 | the nesting level of a loop is 0 without children and otherwise one more than its highest child's |
| `HavlakLsg.RootHolds` | bench/v2/t1-awfy/rust/src/havlak.rs:60-63 | once every loop has a parent the root holds them all |
| `HavlakLsg.Lsg.CreateNewLoop` | bench/v2/t1-awfy/rust/src/havlak.rs:46-52 | appends a loop holding just the given block |
| `HavlakLsg.Lsg.SetParent` | bench/v2/t1-awfy/rust/src/havlak.rs:53-56 | for any two loops, sets the parent and lists the child once; a child made before its parent keeps the forest nested |
| `HavlakLsg.Lsg.AddNode` | bench/v2/t1-awfy/rust/src/havlak.rs:57-59 | adds the block once |
| `HavlakLsg.Lsg.NestingRec` | bench/v2/t1-awfy/rust/src/havlak.rs:66-75 | visits a loop and all inside it: levels and depths as the shape dictates |
| `HavlakLsg.Lsg.CalculateNestingLevel` | bench/v2/t1-awfy/rust/src/havlak.rs:60-65 | parentless loops hang from the root, nesting levels are heights, depths one more than a parent's, whatever low levels were there before |
| `HavlakBody.TreeInner` | bench/v2/t1-awfy/rust/src/havlak.rs:104-114 | every block of a search subtree is reached from its head without leaving it |
| `HavlakBody.BodyBetween` | bench/v2/t1-awfy/rust/src/havlak.rs:148-193 | of two bodies that share a block, the later header lies in the body of the earlier one: bodies nest |
| `HavlakBody.BodyPooled` | bench/v2/t1-awfy/rust/src/havlak.rs:157-177 | when the pool is closed, every block that reaches the header inside its subtree has its root in the pool, by induction along the path |
| `HavlakBody.PoolBody` | bench/v2/t1-awfy/rust/src/havlak.rs:157-177 | the blocks whose roots are pooled are exactly the body: the blocks below w that reach w inside w's subtree |
| `HavlakBody.PoolInnermost` | bench/v2/t1-awfy/rust/src/havlak.rs:157-177 | the pool itself is exactly the blocks whose innermost header is w |
| `HavlakBody.EnteredIff` | bench/v2/t1-awfy/rust/src/havlak.rs:170-172 | a member has a listed predecessor outside w's subtree if and only if an edge of the graph enters the body from there |
| `HavlakBody.EntryKnown` | bench/v2/t1-awfy/rust/src/havlak.rs:170-172 | every edge into w's loop from outside is represented in w's list afterwards |
| `HavlakBody.StepExact` | bench/v2/t1-awfy/rust/src/havlak.rs:148-192 | one header keeps roots, links and predecessor lists exact with respect to the graph's paths |
| `HavlakBody.ShallowChain` | bench/v2/t1-awfy/rust/src/havlak.rs:90-102 | when no block lies in three loop bodies nested in each other, no path is long enough to be hooked |
| `HavlakStage.LookedNext` | bench/v2/t1-awfy/rust/src/havlak.rs:163-176 | one predecessor more of a member is looked at, and everything said about the earlier ones stays |
| `HavlakStage.DrivenNext` | bench/v2/t1-awfy/rust/src/havlak.rs:160-177 | one member more comes off the worklist, and everything said about the earlier ones stays |
| `HavlakStage.DrivenEnd` | bench/v2/t1-awfy/rust/src/havlak.rs:157-177 | with the worklist empty the pool is closed and the kind settled |
| `HavlakRun.LoopsExactly` | bench/v2/t1-awfy/rust/src/havlak.rs:127-193 | at the end a reached block has a loop if and only if it has an edge from itself or from a search descendant |
| `HavlakRun.KindExactly` | bench/v2/t1-awfy/rust/src/havlak.rs:127-193 | on any graph, hooked paths or not, each kind is assigned exactly when its condition on back edges and the predecessor lists of the pool holds |
| `HavlakRun.BodyExactly` | bench/v2/t1-awfy/rust/src/havlak.rs:127-193 | if no path was hooked, a header's pool is exactly the blocks whose innermost loop it heads, and its loop is irreducible exactly when some edge enters its body from outside its subtree |
| `HavlakRun.HeaderExactly` | bench/v2/t1-awfy/rust/src/havlak.rs:183 | if no path was hooked, the header recorded is that of the innermost loop, and 0 for a block in no loop |
| `HavlakRun.BodyBack` | bench/v2/t1-awfy/rust/src/havlak.rs:129-144 | a body is not empty exactly when an edge from below comes back to its header |
| `HavlakRun.HeaderSound` | bench/v2/t1-awfy/rust/src/havlak.rs:183 | a recorded header is a proper search ancestor on a common cycle with the block, and heads a loop |
| `HavlakRun.ProgressStep` | bench/v2/t1-awfy/rust/src/havlak.rs:148-193 | one finished header carries the whole-run invariant on to the next |
| `Havlak.Finder.DoDfs` | bench/v2/t1-awfy/rust/src/havlak.rs:104-114 | numbers current .. lastId go to exactly what the block newly reaches, once each; earlier numbers stay; every edge u -> v of the part has number(v) <= last(u) |
| `Havlak.Finder.FindSet` | bench/v2/t1-awfy/rust/src/havlak.rs:90-102 | returns the root of n and hooks the path exactly as described, roots included |
| `Havlak.Finder.FindKin` | bench/v2/t1-awfy/rust/src/havlak.rs:155-166 | find_set at a client: only links change, the invariant holds, the answer is kin |
| `Havlak.Finder.StepD` | bench/v2/t1-awfy/rust/src/havlak.rs:152-158 | the pool starts with the roots of back-edge sources, all proper descendants of w on a common cycle with it |
| `Havlak.Finder.StepEntry` | bench/v2/t1-awfy/rust/src/havlak.rs:165-174 | one predecessor of a member joins the pool or is recorded as an entry from outside |
| `Havlak.Finder.StepMember` | bench/v2/t1-awfy/rust/src/havlak.rs:160-176 | all predecessors of a member are absorbed or recorded; the list walked does not change |
| `Havlak.Finder.StepE` | bench/v2/t1-awfy/rust/src/havlak.rs:157-177 | the worklist ends with a pool closed under predecessors inside the subtree, and the kind set accordingly; if no path was hooked every predecessor's root is w, pooled or listed, and nothing else is |
| `Havlak.Finder.PoolBody` | bench/v2/t1-awfy/rust/src/havlak.rs:151-177 | the pool of a header and its kind from the back edges and the worklist together |
| `Havlak.Finder.Hang` | bench/v2/t1-awfy/rust/src/havlak.rs:178-190 | the loop is made when the pool or the kind asks for it, else nothing changes |
| `Havlak.Finder.MakeLoop` | bench/v2/t1-awfy/rust/src/havlak.rs:178-190 | one new loop holding the header's block and the pool, headers and parents set for exactly the pool |
| `Havlak.Finder.ClassifyPreds` | bench/v2/t1-awfy/rust/src/havlak.rs:134-142 | back predecessors are exactly those inside the interval, the others are kept once each |
| `Havlak.Finder.Classify` | bench/v2/t1-awfy/rust/src/havlak.rs:128-145 | for every reached block the two lists hold exactly its reached predecessors; the rest are marked dead |
| `Havlak.Finder.Collapse` | bench/v2/t1-awfy/rust/src/havlak.rs:148-192 | one header, from number to number, keeps the whole-run invariant, and exactness as long as no path is hooked, which a shallow graph never needs |
| `Havlak.Finder.CollapseAll` | bench/v2/t1-awfy/rust/src/havlak.rs:147-193 | all headers from the last number down |
| `Havlak.Finder.Reset` | bench/v2/t1-awfy/rust/src/havlak.rs:117-126 | empty tables, every block unvisited |
| `Havlak.Finder.Prepare` | bench/v2/t1-awfy/rust/src/havlak.rs:117-146 | the numbering exact, the edges sorted, every block its own root |
| `Havlak.Finder.FindLoops` | bench/v2/t1-awfy/rust/src/havlak.rs:116-194 | a complete run on any graph ends with the numbering exact and every header processed as its invariant says; on a graph without three bodies nested in each other pools, kinds and headers are exactly those of the graph; earlier loops are untouched; incomplete only when a block has too many non-back predecessors |
| `DeltaBlueNet.ConsumersFeed` | bench/v2/t1-awfy/rust/src/deltablue.rs:174-179 | on matching links the consumers of v are exactly the satisfied constraints on it that do not determine it |
| `DeltaBlueSteps.TruncDivIff` | bench/v2/t1-awfy/rust/src/deltablue.rs:104 | the truncating quotient is the one whose remainder is smaller than the divisor and has the dividend's sign |
| `DeltaBlueSteps.WalkWeakest` | bench/v2/t1-awfy/rust/src/deltablue.rs:110-124 | walkabout strength is the weaker of the constraint's strength and its input's |
| `DeltaBlueSteps.StayIff` | bench/v2/t1-awfy/rust/src/deltablue.rs:110-124 | an output is constant exactly when its constraint is no input and everything it reads is constant |
| `DeltaBlueSteps.ChosenIff` | bench/v2/t1-awfy/rust/src/deltablue.rs:76-92 | a method is chosen exactly when some end is unmarked and weaker, and then the weakest such end becomes the output |
| `DeltaBlueSteps.PropagateStep` | bench/v2/t1-awfy/rust/src/deltablue.rs:181-191 | one turn of propagation leaves fresh all that is not queued |
| `DeltaBlueGrow.OverridingKeeps` | bench/v2/t1-awfy/rust/src/deltablue.rs:142-149 | taking over an output keeps the one-to-one matching, and every order that was right is right for all but the new constraint |
| `DeltaBlueGrow.MarkedCycle` | bench/v2/t1-awfy/rust/src/deltablue.rs:181-185 | a marked variable downstream of the new output proves that no order of evaluation exists |
| `DeltaBlueGrow.FlowTurn` | bench/v2/t1-awfy/rust/src/deltablue.rs:184-188 | each turn of propagation keeps the loop's state and lowers a measure, though queues may grow |
| `DeltaBlueGrow.FlowEnd` | bench/v2/t1-awfy/rust/src/deltablue.rs:181-191 | when propagation runs dry the network with the new constraint is acyclic and fresh |
| `DeltaBlueGrow.UnmarkedFalls` | bench/v2/t1-awfy/rust/src/deltablue.rs:159-163 | each satisfied step marks one more variable, which ends the override chain |
| `DeltaBlueShrink.VariableAdded` | bench/v2/t1-awfy/rust/src/deltablue.rs:34-37 | a new variable keeps matching, acyclicity and freshness |
| `DeltaBlueShrink.ConstraintAdded` | bench/v2/t1-awfy/rust/src/deltablue.rs:39-57 | listing a new unsatisfied constraint keeps matching, acyclicity and freshness |
| `DeltaBlueShrink.RemovedMatched` | bench/v2/t1-awfy/rust/src/deltablue.rs:59-74 | taking a constraint off keeps matching and acyclicity, and no list or link names it afterwards |
| `DeltaBlueShrink.FreedAfter` | bench/v2/t1-awfy/rust/src/deltablue.rs:194-197 | freeing the output leaves only its consumers to recompute |
| `DeltaBlueShrink.VisitFalls` | bench/v2/t1-awfy/rust/src/deltablue.rs:198-211 | each visit of the removal loop lowers a measure, though visits may repeat |
| `DeltaBluePlan.PlanScheduled` | bench/v2/t1-awfy/rust/src/deltablue.rs:219-232 | in the plan outputs are distinct and the input that scheduling looks at is known before each step |
| `DeltaBluePlan.PlanComplete` | bench/v2/t1-awfy/rust/src/deltablue.rs:219-232 | every satisfied constraint that is a source or reads what the plan computes, and whose scheduled input is known in the end, is in the plan |
| `DeltaBluePlan.PlanMoves` | bench/v2/t1-awfy/rust/src/deltablue.rs:219-238 | a plan for changeable sources sets only changeable variables |
| `DeltaBluePlan.PlanFinalIff` | bench/v2/t1-awfy/rust/src/deltablue.rs:126-131 | such a plan reads only final values if and only if no scale or offset of a step is written by that step or a later one |
| `DeltaBluePlan.PlanHolds` | bench/v2/t1-awfy/rust/src/deltablue.rs:240 | after a plan that reads only final values every constraint of it holds |
| `DeltaBluePlan.HoldsIff` | bench/v2/t1-awfy/rust/src/deltablue.rs:94-108 | a constraint holds exactly when it is met: equal ends, v2 = v1 scale + offset, or scaling backward the truncated quotient, by its remainder |
| `DeltaBluePlan.PlanMeets` | bench/v2/t1-awfy/rust/src/deltablue.rs:240 | after such a plan every constraint of it is met, in those terms |
| `DeltaBluePlan.RanValues` | bench/v2/t1-awfy/rust/src/deltablue.rs:240 | running such a plan changes values of changeable variables only |
| `DeltaBluePlan.StaleScale` | bench/v2/t1-awfy/rust/src/deltablue.rs:126-131 | a settled network and its plan after which a scale constraint of the plan does not hold: its factor is written after it |
| `DeltaBlue.Planner.ChooseMethod` | bench/v2/t1-awfy/rust/src/deltablue.rs:76-92 | the chosen method, nothing else changed |
| `DeltaBlue.Planner.Execute` | bench/v2/t1-awfy/rust/src/deltablue.rs:94-108 | the output gets what the constraint computes, and a constraint that does not read its own output is met by the new values; false where the source divides by zero |
| `DeltaBlue.Planner.Recalculate` | bench/v2/t1-awfy/rust/src/deltablue.rs:110-124 | strength, stay flag and, when constant, value of the output |
| `DeltaBlue.Planner.AddConstraintsConsumingTo` | bench/v2/t1-awfy/rust/src/deltablue.rs:174-179 | appends exactly the consumers, in list order |
| `DeltaBlue.Planner.AddPropagate` | bench/v2/t1-awfy/rust/src/deltablue.rs:181-192 | on success the network is fresh and ordered with the new constraint; a cycle is reported only at a marked variable below the output |
| `DeltaBlue.Planner.Satisfy` | bench/v2/t1-awfy/rust/src/deltablue.rs:142-157 | from any matching acyclic state: fails only for a required constraint with no open end or a real cycle, else matches and has an order again with one more variable marked, and is fresh again if it was |
| `DeltaBlue.Planner.IncrementalAdd` | bench/v2/t1-awfy/rust/src/deltablue.rs:159-163 | from any matching acyclic state the override chain ends: the links match and have an order again, and all is fresh again if it was; or a required constraint is stuck, or the satisfied constraints admit no order, or something divides by zero |
| `DeltaBlue.Planner.NewVar` | bench/v2/t1-awfy/rust/src/deltablue.rs:34-37 | sound again with one more variable |
| `DeltaBlue.Planner.AddToGraph` | bench/v2/t1-awfy/rust/src/deltablue.rs:47-57 | the constraint joins exactly the lists of what it touches, unsatisfied |
| `DeltaBlue.Planner.NewCon` | bench/v2/t1-awfy/rust/src/deltablue.rs:39-45 | a new constraint is listed and added incrementally |
| `DeltaBlue.Planner.RemoveVarCon` | bench/v2/t1-awfy/rust/src/deltablue.rs:59-62 | the constraint leaves the list and the link |
| `DeltaBlue.Planner.RemoveFromGraph` | bench/v2/t1-awfy/rust/src/deltablue.rs:64-74 | the constraint leaves every list and link and is off |
| `DeltaBlue.Planner.VisitConsumers` | bench/v2/t1-awfy/rust/src/deltablue.rs:202-209 | recomputes the consumers in order; what is not awaited is fresh |
| `DeltaBlue.Planner.CollectUnsatisfied` | bench/v2/t1-awfy/rust/src/deltablue.rs:199-201 | collects exactly the unsatisfied constraints of the list, in order |
| `DeltaBlue.Planner.RemovePropagateFrom` | bench/v2/t1-awfy/rust/src/deltablue.rs:194-217 | everything downstream is fresh again; the result is the unsatisfied constraints met, or the ordering assert fails |
| `DeltaBlue.Planner.Detach` | bench/v2/t1-awfy/rust/src/deltablue.rs:165-170 | the network without the constraint, sound again |
| `DeltaBlue.Planner.IncrementalRemove` | bench/v2/t1-awfy/rust/src/deltablue.rs:165-172 | sound again without the constraint, after trying what it had kept down, all of it in order, each from the state the one before left |
| `DeltaBlue.Planner.Destroy` | bench/v2/t1-awfy/rust/src/deltablue.rs:242-245 | sound again, the constraint off and on no list; what it had kept down has been tried in order |
| `DeltaBlue.Planner.MakePlan` | bench/v2/t1-awfy/rust/src/deltablue.rs:219-232 | returns exactly the scheduled constraints; only marks change |
| `DeltaBlue.Planner.ExtractPlan` | bench/v2/t1-awfy/rust/src/deltablue.rs:234-238 | the plan for exactly the satisfied inputs among the arguments |
| `DeltaBlue.Planner.ExecutePlan` | bench/v2/t1-awfy/rust/src/deltablue.rs:240 | runs the plan in order and meets every constraint of a plan that reads only final values; a plan of changeable outputs keeps the planner sound |
| `DeltaBlueChain.ChainAcyclic` | bench/v2/t1-awfy/rust/src/deltablue.rs:262-264 | however its equalities point, a chain whose links match has no cycle |
| `DeltaBlueChain.WalkFloor` | bench/v2/t1-awfy/rust/src/deltablue.rs:110-124 | no variable is easier to change than the weakest satisfied unary constraint |
| `DeltaBlueChain.RightStep` | bench/v2/t1-awfy/rust/src/deltablue.rs:142-163 | one override carries the flow one equality further right |
| `DeltaBlueChain.LeftStep` | bench/v2/t1-awfy/rust/src/deltablue.rs:142-163 | one override carries the flow one equality further left |
| `DeltaBlueRuns.NoCycle` | bench/v2/t1-awfy/rust/src/deltablue.rs:262-266 | on a chain no addition meets a cycle or a division |
| `DeltaBlueRuns.Builds` | bench/v2/t1-awfy/rust/src/deltablue.rs:264 | each equality is added without failure and computes rightward |
| `DeltaBlueRuns.Anchors` | bench/v2/t1-awfy/rust/src/deltablue.rs:265 | the stay is added without failure and turns the whole chain leftward |
| `DeltaBlueRuns.Drives` | bench/v2/t1-awfy/rust/src/deltablue.rs:266 | the edit is added without failure, turns the whole chain rightward and puts the stay off |
| `DeltaBlueDrive.EditPlan` | bench/v2/t1-awfy/rust/src/deltablue.rs:267 | the plan is the edit followed by the equalities from left to right |
| `DeltaBlueDrive.EditRuns` | bench/v2/t1-awfy/rust/src/deltablue.rs:268-271 | running it carries the first variable's value to the last |
| `DeltaBlueDrive.VisitsAll` | bench/v2/t1-awfy/rust/src/deltablue.rs:194-217 | removing the edit visits every variable once and meets only the stay |
| `DeltaBlueDrive.EditDetached` | bench/v2/t1-awfy/rust/src/deltablue.rs:272 | so the ordering assert holds and the stay is what is left to satisfy |
| `DeltaBlueTest.ChainTest` | bench/v2/t1-awfy/rust/src/deltablue.rs:260-273 | for every chain length the test passes: every value set arrives and no panic or assert is reached, destroying the edit included |
| `DeltaBlueTest.Drive` | bench/v2/t1-awfy/rust/src/deltablue.rs:267-273 | from the driven chain on: plan, a hundred runs, destroy |
| `RichardsLaws.QueueKept` | bench/v2/t1-awfy/rust/src/richards.rs:77-96 | queueing a packet in hand keeps the state well-formed and puts it in exactly one more place |
| `RichardsLaws.HandlerKept` | bench/v2/t1-awfy/rust/src/richards.rs:136-162 | a handler's turn loses and duplicates no packet |
| `RichardsLaws.WorkerRuns` | bench/v2/t1-awfy/rust/src/richards.rs:176-191 | a worker's turn loses and duplicates no packet |
| `RichardsLaws.NextKept` | bench/v2/t1-awfy/rust/src/richards.rs:195-205 | one turn keeps the state well-formed, with every packet held exactly as often as before |
| `RichardsLaws.NextCounted` | bench/v2/t1-awfy/rust/src/richards.rs:70-109 | the first counter grows exactly when a packet is put into an input, the second exactly when the current task goes on hold |
| `RichardsLaws.RunKept` | bench/v2/t1-awfy/rust/src/richards.rs:195-205 | after any number of turns from any well-formed queues, each packet is in exactly one place if it was at the start |
| `RichardsPriority.QueuePrior` | bench/v2/t1-awfy/rust/src/richards.rs:77-96 | a packet for a waiting task of higher priority makes that task the next |
| `RichardsPriority.ReleasePrior` | bench/v2/t1-awfy/rust/src/richards.rs:98-103 | so does taking one off hold |
| `RichardsPriority.NextPrior` | bench/v2/t1-awfy/rust/src/richards.rs:195-205 | one turn keeps everything of higher priority than the current task on hold or waiting without a packet |
| `RichardsPriority.RunPrior` | bench/v2/t1-awfy/rust/src/richards.rs:195-205 | in every run from the head of a list in falling priority, no task that could run has a higher priority than the current one |
| `RichardsWork.QueueDelivers` | bench/v2/t1-awfy/rust/src/richards.rs:77-96 | a queued packet is last in its addressee's input and bears the sender's identity; nothing else changes |
| `RichardsWork.WorkerWrites` | bench/v2/t1-awfy/rust/src/richards.rs:176-191 | the worker alternates between the handlers and writes the next four letters of the alphabet |
| `RichardsWork.LettersCycle` | bench/v2/t1-awfy/rust/src/richards.rs:183-187 | the letters written are 65 + (count + i) mod 26 |
| `RichardsWork.HandsOut` | bench/v2/t1-awfy/rust/src/richards.rs:143-161 | a handler hands out the work packet's next item in the device packet; no other contents change |
| `RichardsWork.IdleWakes` | bench/v2/t1-awfy/rust/src/richards.rs:163-175 | the control word stays in 1 .. 65535 and its top bit afterwards says which device came off hold |
| `RichardsEnds.QueueCost` | bench/v2/t1-awfy/rust/src/richards.rs:77-96 | queueing a packet in hand keeps packets where they belong and adds exactly the cost of one arrival |
| `RichardsEnds.DeviceTurn` | bench/v2/t1-awfy/rust/src/richards.rs:129-135 | a device's turn leaves less to do |
| `RichardsEnds.HandlerTurn` | bench/v2/t1-awfy/rust/src/richards.rs:136-162 | a handler's turn, whichever way it branches, leaves less to do |
| `RichardsEnds.IdleTurn` | bench/v2/t1-awfy/rust/src/richards.rs:163-175 | an idle task's turn leaves fewer idle runs, though it sets a device off |
| `RichardsEnds.WorkerTurn` | bench/v2/t1-awfy/rust/src/richards.rs:176-191 | a worker's turn leaves less to do |
| `RichardsEnds.TurnFalls` | bench/v2/t1-awfy/rust/src/richards.rs:195-205 | every turn keeps the system typed and lowers a lexicographic measure, for any number of tasks and packets |
| `RichardsEnds.RunEnds` | bench/v2/t1-awfy/rust/src/richards.rs:195-205 | every run of a typed system ends, with each packet still in exactly one place |
| `RichardsLinks.AppendedLinked` | bench/v2/t1-awfy/rust/src/richards.rs:44-51 | the walk to the end and the one write link exactly the longer list, stale links notwithstanding |
| `RichardsLinks.TasksApart` | bench/v2/t1-awfy/rust/src/richards.rs:44-51 | lists of different tasks share no packet |
| `RichardsLinks.QueueRep` | bench/v2/t1-awfy/rust/src/richards.rs:77-96 | the arena after queue_packet stands for the machine after it, packet_pending included |
| `RichardsLinks.ReceiveRep` | bench/v2/t1-awfy/rust/src/richards.rs:138-141 | the arena after a handler's append stands for the machine after it |
| `Richards.Scheduler.Append` | bench/v2/t1-awfy/rust/src/richards.rs:44-51 | the packet is last on the list, everything else as it was |
| `Richards.Scheduler.CreatePacket` | bench/v2/t1-awfy/rust/src/richards.rs:53-56 | one more packet |
| `Richards.Scheduler.CreateTask` | bench/v2/t1-awfy/rust/src/richards.rs:58-66 | one more task, first in the list and in the table |
| `Richards.Scheduler.HoldSelf` | bench/v2/t1-awfy/rust/src/richards.rs:70-75 | stands for the machine with the running task on hold; its successor is next |
| `Richards.Scheduler.QueuePacket` | bench/v2/t1-awfy/rust/src/richards.rs:77-84 | stands for the machine with the packet at its addressee, and gives the task to run next |
| `Richards.Scheduler.AddInputAndCheckPriority` | bench/v2/t1-awfy/rust/src/richards.rs:86-96 | the packet is last in the input; the higher priority runs next exactly when the input was empty |
| `Richards.Scheduler.Release` | bench/v2/t1-awfy/rust/src/richards.rs:98-103 | stands for the machine with the task off hold |
| `Richards.Scheduler.MarkWaiting` | bench/v2/t1-awfy/rust/src/richards.rs:105-109 | stands for the machine with the running task waiting |
| `Richards.Scheduler.RunDevice` | bench/v2/t1-awfy/rust/src/richards.rs:129-135 | refines the device's turn |
| `Richards.Scheduler.RunHandler` | bench/v2/t1-awfy/rust/src/richards.rs:136-162 | refines the handler's turn |
| `Richards.Scheduler.RunIdle` | bench/v2/t1-awfy/rust/src/richards.rs:163-175 | refines the idle task's turn |
| `Richards.Scheduler.RunWorker` | bench/v2/t1-awfy/rust/src/richards.rs:176-191 | refines the worker's turn |
| `Richards.Scheduler.RunTask` | bench/v2/t1-awfy/rust/src/richards.rs:111-125 | refines taking a packet and running the task |
| `Richards.Scheduler.Turn` | bench/v2/t1-awfy/rust/src/richards.rs:197-204 | refines one turn of the loop |
| `Richards.Scheduler.Schedule` | bench/v2/t1-awfy/rust/src/richards.rs:195-205 | for a typed system the loop ends, at the state the machine's run ends in |
| `Richards.Scheduler.ScheduleFor` | bench/v2/t1-awfy/rust/src/richards.rs:195-205 | from any well-formed queues refines any number of turns |
| `Richards.Scheduler.SetUp` | bench/v2/t1-awfy/rust/src/richards.rs:207-224 | stands for the benchmark's start, which is well-formed with each packet in one place |
| `Richards.Scheduler.Start` | bench/v2/t1-awfy/rust/src/richards.rs:207-225 | the benchmark ends with no task left, and after every number of turns each packet is in exactly one place and no runnable task has a higher priority than the current one |
| `JsonObject.SlotIff` | bench/v2/t1-awfy/rust/src/json.rs:12 | two names share a slot if and only if their lengths agree modulo 32 |
| `JsonObject.AddValid` | bench/v2/t1-awfy/rust/src/json.rs:13-18 | after any additions every slot points to its latest name, or to none when it came as the 256th or later |
| `JsonObject.GetIff` | bench/v2/t1-awfy/rust/src/json.rs:19-23 | get finds v for name if and only if name, among the first 255, was added with v and no later name has the same length modulo 32 |
| `JsonGrammar.PairsValid` | bench/v2/t1-awfy/rust/src/json.rs:66-84 | the object of any document can be looked up |
| `JsonReading.LostName` | bench/v2/t1-awfy/rust/src/json.rs:66-84 | a concrete document of two names that parses, and whose lookup of the first name fails |
| `JsonReading.NumberRead` | bench/v2/t1-awfy/rust/src/json.rs:122-144 | the longest number at the head of a lexeme followed by anything that cannot extend it is the lexeme |
| `JsonReading.StringRead` | bench/v2/t1-awfy/rust/src/json.rs:93-108 | reading a printed string gives exactly the unescaped text, for every choice of escapes |
| `JsonReading.DocRead` | bench/v2/t1-awfy/rust/src/json.rs:40-92 | the text of any document, with any whitespace between tokens, is read as what the document stands for |
| `JsonReading.SomeDoc` | bench/v2/t1-awfy/rust/src/json.rs:40-92 | any text that is read as a value starts with the text of a document standing for that value |
| `JsonReading.ReadIff` | bench/v2/t1-awfy/rust/src/json.rs:32-39 | a text is accepted with value v if and only if it is a document for v between blanks, a bare number having a blank after it |
| `JsonReading.OneMeaning` | bench/v2/t1-awfy/rust/src/json.rs:32-39 | no text stands for two values |
| `JsonQuote.QuotedRead` | bench/v2/t1-awfy/rust/src/json.rs:93-121 | every text, quoted character by character, is read back as the text |
| `JsonQuote.SlashRead` | bench/v2/t1-awfy/rust/src/json.rs:109-121 | an escaped slash is a slash |
| `JsonQuote.QuotedDocument` | bench/v2/t1-awfy/rust/src/json.rs:32-39 | and as a whole document it is accepted with that string as its value |
| `Json.Parser.Read` | bench/v2/t1-awfy/rust/src/json.rs:156-166 | moves one character on; lines passed are counted |
| `Json.Parser.SkipWhiteSpace` | bench/v2/t1-awfy/rust/src/json.rs:155 | passes exactly the leading whitespace |
| `Json.Parser.PauseCapture` | bench/v2/t1-awfy/rust/src/json.rs:168-173 | the text since the capture began joins the buffer |
| `Json.Parser.EndCapture` | bench/v2/t1-awfy/rust/src/json.rs:174-185 | buffer and text since the capture began; fails exactly at the end of the text |
| `Json.Parser.ReadEscape` | bench/v2/t1-awfy/rust/src/json.rs:109-121 | one of the eight escapes joins the buffer unescaped, anything else fails |
| `Json.Parser.ReadStringInternal` | bench/v2/t1-awfy/rust/src/json.rs:93-108 | pausing and resuming the capture yields exactly the string the grammar reads; without a closing quote the loop never ends |
| `Json.Parser.ReadNumber` | bench/v2/t1-awfy/rust/src/json.rs:122-131 | agrees with the grammar's number, failing where the text ends with it |
| `Json.Parser.ReadArray` | bench/v2/t1-awfy/rust/src/json.rs:52-65 | agrees with the grammar's array |
| `Json.Parser.ReadObject` | bench/v2/t1-awfy/rust/src/json.rs:66-84 | agrees with the grammar's object |
| `Json.Parser.ReadValue` | bench/v2/t1-awfy/rust/src/json.rs:40-51 | agrees with the grammar's value, failures included |
| `Json.Parser.Parse` | bench/v2/t1-awfy/rust/src/json.rs:32-39 | succeeds exactly on the texts of documents, with their meaning |

## Left out

- RSA and NIST rendering: file writing, the concrete constants of the three size classes and curves, reference vectors.
- Hashes, HMAC, the RFC 6979 generator, `rsa_pkcs1_em` and `rsa_pkcs1_verify`: defined in files that are not part of this
  model; the encoding and verification are stated from section 9.2 and section 8.2.2 of RFC 8017 with an opaque digest.
- `ct_hide`, `Secret`, `classify`, `declassify`: the identity; constant time is not a property of the values computed.
- Limbs of wide words in the compiler's library: a word is an integer with explicit wrap-around.
- NistCyclic.Cyclic: that the points of the curve under chord and tangent are a cyclic group of order n generated by the base point (associativity and the count of points) is the one hypothesis about the curve; that the formulas compute chord and tangent, and every law used of them, is proved.
- The tree's keys are integers under their order; `cmp_key` on floating-point pairs, NaN included, is not modelled.
- Collision geometry (`find_intersection`, voxels, `recurse`, `reduce_collision_set`): floating point; the detector is modelled up to the list of motions.
- Removed slots of the tree's arena stay allocated, as in the source; memory use is not described.
- HavlakRun.KindExactly: once a path has been hooked the kind is described by the run's own predecessor lists, not by the graph's edges, and the recorded header by HavlakRun.HeaderSound only, since representatives may then be wrong.
- Havlak.Finder.FindLoops: the early return on more than 32768 non-back predecessors is the result `complete == false`, after which only the numbering and the earlier loops are described.
- Havlak's `Cfg.edges`, loop counter and the benchmark's graph builders: never read by the algorithm.
- Widths of counters, marks, block numbers and JSON indices (32 or 64 bits): unbounded integers.
- DeltaBlue.Planner.ExecutePlan: where a step would divide by zero the source panics; the state then is not described.
- DeltaBlue.Planner.AddPropagate: before the panic on a cycle the source also removes the constraint; the state between the two is not modelled.
- DeltaBlue's `change` and projection test: built from the same operations; their values are products of the benchmark's constants.
- Richards.Scheduler.ScheduleFor: arbitrary queues may keep packets moving for ever, so their runs are described turn by turn; the end is proved for systems whose packets have the right kinds in the right hands and whose idle tasks off hold have a count to run down.
- Richards.Scheduler.Start: the benchmark's two final counts, 23246 and 9297, are the outcome of one long run and are not proved.
- An idle task of Richards is required not to wait, as it is created running: a waiting idle task would drop packets.
- Json.Parser.Parse: the input is a sequence of one-byte characters; in the source a longer UTF-8 character makes a slice panic.
- Json.Parser.ReadStringInternal: the loop without a closing quote is the outcome `Looping`, where the source reads on for ever.
- Error messages of panics, and the parser's column, which the source never advances.
- The C, Go, C#, JavaScript ports, the small benchmarks (Bounce, List, Permute, Queens, Sieve, Storage, Towers, NBody, Mandelbrot), reports and the editor: not part of this model.
