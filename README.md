# URDF inertia driver, modelled in Dafny

This project models `main` of `apps/sample/trimesh_inertia/urdf_from_file.cpp`, a vcglib sample. The program:

- reads a list of command-line tokens;
- takes a positive number as the overall mass;
- reads `.txt` files as joint-translation records;
- imports every other token as a mesh and integrates its volume, centre of mass and inertia tensor;
- prints one URDF `<inertial>`/`<visual>` fragment per mesh.

In each fragment:

- the mass is shared among the links in proportion to their volumes;
- the tensor is scaled by mass over total volume;
- both origins are shifted by a cumulative joint offset.

The model is written over Dafny `real`s.

The modules follow the program's stages:

- `DecimalParse` is the `atof` reading of a token: C white space, an optional sign, digits, an optional `.` with more digits, and an optional exponent (`e` or `E`, an optional sign, digits).
- `Arguments` is the classifier, which tries the mass reading, then the `.txt` suffix, then `.dae` against any other importer.
- `JointFile` is the joint-file reader. It covers the 32-byte `getline` buffer, `strtok` with `" "`, and zero-filled six-component records. `ParseJointLine` and `ReadJointFile` are its two loops, as methods.
- `JointChain` is the offset `Trans` of link *i*. It is given as a link-by-link reference function `JointOffset`. The closed form (minus the sum of translations 0 .. min(i, n-1)) is proved about it. `LinkOffset` is the inner `for` loop.
- `Accumulator` is the argument loop as a function on the values of `main`'s locals (`State`). One step per token is `Step`; the whole loop is `Process`.
- `Normaliser` is the report loop. `ReportAt` and `Reports` are its specification and `EmitReports` is the loop. It holds the mass-conservation, bounds, density and origin lemmas.
- `UrdfFromFile` is the whole of `main`:
  - `Run` is the method with both loops and both early returns. It is proved equal to the reference function `Program`.
  - The lemmas state the exit codes and the contents of a successful run.

The mesh importers and the inertia integrator are one oracle, `Environment.importMesh(importer, path)`. It either fails or returns the signed mass at unit density, the centre of mass and the tensor. A joint file is given to the model as its lines, by `Environment.jointLines(path)`.

The link label quirk is kept on purpose. Link *i* is printed as `argv[i+1]`, the *i*-th argument, and not as the mesh it was read from (`LinkNameQuirk`).

Four behaviours of the code are easy to miss. The model keeps each of them:

- A joint file that cannot be opened is not an error. The `getline` loop does not run and the records stay cleared.
- A blank joint line is not skipped. It yields an all-zero record (`BlankLineGivesZeroRecord`).
- A zero total volume is not checked before the division. The model asks only that the total volume is not zero once there is a link (`NonDegenerate`).
- Only `argc <= 1` is rejected. A run with arguments but no mesh exits with 0 and reports nothing (`NoMeshStillSucceeds`).

## Model

| member | source | states |
|---|---|---|
| Basics.Abs | apps/sample/trimesh_inertia/urdf_from_file.cpp:123 | `std::abs` of the inertia mass is non-negative and is the value or its negation |
| DecimalParse.Atof | apps/sample/trimesh_inertia/urdf_from_file.cpp:67 | definition (also used for joint fields at :92): white space, sign, digits, fraction and exponent, read up to the first character that does not fit; no numeric prefix reads as 0 |
| DecimalParse.AtofOfNumeral | apps/sample/trimesh_inertia/urdf_from_file.cpp:67 | a rendered natural number reads back as itself |
| DecimalParse.AtofOfDecimal | apps/sample/trimesh_inertia/urdf_from_file.cpp:67 | digits, a point and digits read as the whole part plus the fraction, whatever follows that neither continues the digits nor starts with `e`/`E` |
| DecimalParse.ShiftsArePowers | apps/sample/trimesh_inertia/urdf_from_file.cpp:67 | the exponent scaling multiplies or divides the mantissa by ten to the power of the exponent |
| DecimalParse.ExponentIsApplied | apps/sample/trimesh_inertia/urdf_from_file.cpp:67 | "2e3" reads as 2000 |
| DecimalParse.NegativeExponentIsApplied | apps/sample/trimesh_inertia/urdf_from_file.cpp:67 | "15e-1.obj" reads as 1.5 |
| DecimalParse.BareExponentIsIgnored | apps/sample/trimesh_inertia/urdf_from_file.cpp:67 | "7e.obj" reads as 7: an `e` without digits is left unread |
| DecimalParse.FractionBounds | apps/sample/trimesh_inertia/urdf_from_file.cpp:67 | the digits after the point denote a value in [0, 1) |
| DecimalParse.UnsignedNonNegative | apps/sample/trimesh_inertia/urdf_from_file.cpp:67-68 | an unsigned numeral never reads as negative |
| DecimalParse.NonNumericReadsZero | apps/sample/trimesh_inertia/urdf_from_file.cpp:67-68 | a token whose first non-blank character is not a digit, sign or point, and which does not spell "inf" or "nan", reads as 0 |
| DecimalParse.MinusNeverPositive | apps/sample/trimesh_inertia/urdf_from_file.cpp:67-68 | a token starting with '-' is never taken as the mass |
| Arguments.Classify | apps/sample/trimesh_inertia/urdf_from_file.cpp:67-76 | definition: mass iff the reading is > 0; otherwise joint file iff it ends in ".txt" (length at least 4); otherwise a mesh, read with the DAE importer iff it ends in ".dae" (:102) |
| Arguments.NumeralIsMass | apps/sample/trimesh_inertia/urdf_from_file.cpp:67-73 | every positive numeral is the mass override with its value |
| Arguments.NumericPrefixWinsOverSuffix | apps/sample/trimesh_inertia/urdf_from_file.cpp:67-76 | the numeric test comes first: "3.txt" is the mass 3, not a joint file |
| Arguments.ExponentPathIsMass | apps/sample/trimesh_inertia/urdf_from_file.cpp:67-73 | the exponent counts: "2e3.obj" is the mass 2000, not a mesh |
| Arguments.PathIsNotMass | apps/sample/trimesh_inertia/urdf_from_file.cpp:67-76 | a path starting with a letter, other than one spelling "inf" or "nan", is never the mass; it is a joint file iff it ends in ".txt" |
| JointFile.NextToken | apps/sample/trimesh_inertia/urdf_from_file.cpp:88-93 | definition: `strtok` with `" "`: skip spaces, take the run of non-spaces, return the text after it; the next call skips the delimiter |
| JointFile.Tokens | apps/sample/trimesh_inertia/urdf_from_file.cpp:88-93 | definition: the successive `strtok` tokens of a line |
| JointFile.NextTokenShape | apps/sample/trimesh_inertia/urdf_from_file.cpp:88-93 | `strtok` gives NULL iff only delimiters remain, and otherwise a non-empty run of non-spaces |
| JointFile.TokensAreTokens | apps/sample/trimesh_inertia/urdf_from_file.cpp:88-93 | every token of a line is a non-empty run of non-space characters |
| JointFile.TokensOfJoin | apps/sample/trimesh_inertia/urdf_from_file.cpp:88-93 | splitting a single-space-joined list of tokens gives back exactly that list |
| JointFile.BlankLineHasNoTokens | apps/sample/trimesh_inertia/urdf_from_file.cpp:88-90 | an empty or all-space line has no tokens |
| JointFile.ParseJoint | apps/sample/trimesh_inertia/urdf_from_file.cpp:86-94 | definition: the zeroed six-vector whose component k is the reading of token k |
| JointFile.JoinedTokensFillRecord | apps/sample/trimesh_inertia/urdf_from_file.cpp:86-94 | for up to six tokens joined by single spaces, component k of the record is the reading of token k and the remaining components are 0 |
| JointFile.TokensAfterSpaces | apps/sample/trimesh_inertia/urdf_from_file.cpp:88-93 | spaces in front of a line produce no token: the line splits as if they were absent |
| JointFile.TokensOfGaps | apps/sample/trimesh_inertia/urdf_from_file.cpp:88-93 | tokens separated by runs of one or more spaces, with any number of spaces at either end, split back into exactly those tokens |
| JointFile.SpacedLineTokens | apps/sample/trimesh_inertia/urdf_from_file.cpp:88-93 | `" 0.1  0.2 0.3 "` splits into `0.1`, `0.2`, `0.3`: a double space is one separator |
| JointFile.GappedTokensFillRecord | apps/sample/trimesh_inertia/urdf_from_file.cpp:86-94 | for up to six tokens with any spacing between and around them, component k of the record is the reading of token k, and the remaining components are 0 |
| JointFile.NumeralLineRoundTrip | apps/sample/trimesh_inertia/urdf_from_file.cpp:83-94 | writing up to six naturals on a line and reading it back gives them in order, followed by zeros |
| JointFile.ParseJointLine | apps/sample/trimesh_inertia/urdf_from_file.cpp:86-94 | the `strtok`/`index++` loop fills a zeroed six-vector to give the record the line denotes |
| JointFile.ReadCountShape | apps/sample/trimesh_inertia/urdf_from_file.cpp:81-83 | the lines read are those before the first line of 32 or more characters |
| JointFile.ReadJointFile | apps/sample/trimesh_inertia/urdf_from_file.cpp:78-96 | after `joints.clear()` and the `getline` loop, `joints` holds one record per line read, in file order |
| JointFile.BlankLineGivesZeroRecord | apps/sample/trimesh_inertia/urdf_from_file.cpp:86-95 | a blank line that is read yields the all-zero record |
| JointChain.JointOffset | apps/sample/trimesh_inertia/urdf_from_file.cpp:143-144 | definition, link by link: minus the first translation, then minus each further record's translation while records last |
| JointChain.OffsetIsNegatedSum | apps/sample/trimesh_inertia/urdf_from_file.cpp:143-144 | the offset of a link with its own record is minus the sum of the translations of records 0 .. i |
| JointChain.LinkOffset | apps/sample/trimesh_inertia/urdf_from_file.cpp:143-144 | the `Trans -= ...` loop computes the offset of link i |
| JointChain.NoJointsNoOffset | apps/sample/trimesh_inertia/urdf_from_file.cpp:143-144 | with no records every offset is zero |
| JointChain.OffsetSaturates | apps/sample/trimesh_inertia/urdf_from_file.cpp:144 | every link at or beyond the last record has the last record's offset |
| JointChain.TwoRecordExample | apps/sample/trimesh_inertia/urdf_from_file.cpp:144 | translations (1,0,0) then (0,1,0) give (-1,0,0) for link 0 and (-1,-1,0) for link 1 and every later link |
| JointChain.TwoRecordLiterals | apps/sample/trimesh_inertia/urdf_from_file.cpp:144 | the records (1,0,0,0,0,0) and (0,1,0,0,0,0) have those translations |
| Accumulator.Step | apps/sample/trimesh_inertia/urdf_from_file.cpp:67-129 | definition: one pass of the argument loop, None for the early `return -1` |
| Accumulator.Process | apps/sample/trimesh_inertia/urdf_from_file.cpp:65-130 | definition: the passes over all of `argv[1..]`, stopping at the first None |
| Accumulator.StepOutcome | apps/sample/trimesh_inertia/urdf_from_file.cpp:104-129 | one token stops the loop iff it is a mesh that fails to import; otherwise positive mass, non-negative volumes summing to `volume` and equal-length sequences are kept |
| Accumulator.ProcessConsistent | apps/sample/trimesh_inertia/urdf_from_file.cpp:120-129 | after every token `volume` equals the sum of `VolPerLink`, all volumes are ≥ 0 and the sequences have equal length |
| Accumulator.ProcessFails | apps/sample/trimesh_inertia/urdf_from_file.cpp:104-116 | the loop returns early iff some mesh token fails to import |
| Accumulator.ProcessLinks | apps/sample/trimesh_inertia/urdf_from_file.cpp:119-129 | one link per mesh token, in order, holding that mesh's absolute volume, tensor and centre of mass |
| Accumulator.ProcessMass | apps/sample/trimesh_inertia/urdf_from_file.cpp:55 | the mass after the loop is the last positive numeric token, or 1.0 |
| Accumulator.ProcessJoints | apps/sample/trimesh_inertia/urdf_from_file.cpp:78 | only the last joint file counts; with none there are no records |
| Accumulator.NoMeshArgs | apps/sample/trimesh_inertia/urdf_from_file.cpp:65-130 | with no mesh token there is no link |
| Accumulator.StepVolume | apps/sample/trimesh_inertia/urdf_from_file.cpp:123-126 | a pass never lowers `volume`, and a mesh with a non-zero volume raises it |
| Accumulator.VolumeAfterSolidMesh | apps/sample/trimesh_inertia/urdf_from_file.cpp:123-126 | once a mesh with a non-zero volume has been read, `volume` stays positive |
| Accumulator.PositiveVolume | apps/sample/trimesh_inertia/urdf_from_file.cpp:126 | when the loop does not stop, some mesh has a non-zero volume or there is none, the total volume is positive as soon as there is a link |
| Normaliser.ReportAt | apps/sample/trimesh_inertia/urdf_from_file.cpp:140-159 | definition: link i is named `argv[i+1]`, gets mass `mass * VolPerLink[i] / volume`, its tensor times `mass / volume`, and its centre of mass and visual origin shifted by its joint offset |
| Normaliser.EmitReports | apps/sample/trimesh_inertia/urdf_from_file.cpp:138-160 | the report loop produces the report of every link, in link order |
| Normaliser.ReportsShape | apps/sample/trimesh_inertia/urdf_from_file.cpp:138 | there is one report per link and report i is that of link i |
| Normaliser.TotalMassOfShares | apps/sample/trimesh_inertia/urdf_from_file.cpp:146 | masses that are shares of parts add up to the share of the sum of the parts |
| Normaliser.TotalMassOfReports | apps/sample/trimesh_inertia/urdf_from_file.cpp:146 | all links together receive the share of the total link volume |
| Normaliser.MassConservation | apps/sample/trimesh_inertia/urdf_from_file.cpp:146 | the link masses add up to the mass (exact arithmetic) |
| Normaliser.LinkMassBounds | apps/sample/trimesh_inertia/urdf_from_file.cpp:146 | every link mass lies in [0, mass] |
| Normaliser.UniformDensity | apps/sample/trimesh_inertia/urdf_from_file.cpp:141-146 | a link with a volume has the density of the whole, mass / volume, and its tensor is its unit-density tensor scaled by its own mass over its own volume |
| Normaliser.ProportionalMasses | apps/sample/trimesh_inertia/urdf_from_file.cpp:146 | link masses are in proportion to link volumes: `InProportion` states mass_i * vol_j == mass_j * vol_i |
| Normaliser.OriginsAlongChain | apps/sample/trimesh_inertia/urdf_from_file.cpp:143-155 | inertial origin = centre of mass + visual origin; visual origin = joint offset; consecutive offsets differ by the next translation until the records run out |
| UrdfFromFile.Program | apps/sample/trimesh_inertia/urdf_from_file.cpp:48-164 | definition: exit -1 with no report when there is no argument or the loop stops; otherwise exit 0 with one report per link |
| UrdfFromFile.ArgumentPass | apps/sample/trimesh_inertia/urdf_from_file.cpp:66-129 | one pass of the loop body yields the state `Step` gives, or None for the early return |
| UrdfFromFile.ReachedJointFileFits | apps/sample/trimesh_inertia/urdf_from_file.cpp:76-83 | a joint file the loop reaches before stopping is one whose lines fit the records |
| UrdfFromFile.Run | apps/sample/trimesh_inertia/urdf_from_file.cpp:48-164 | `main` with both loops and early returns yields the exit code and reports of `Program` |
| UrdfFromFile.FailureStops | apps/sample/trimesh_inertia/urdf_from_file.cpp:104-116 | once an import fails the run as a whole fails |
| UrdfFromFile.ExitCodes | apps/sample/trimesh_inertia/urdf_from_file.cpp:58-62 | exit code is 0 or -1; it is -1 iff there is no argument or some mesh fails to open, and then nothing is reported |
| UrdfFromFile.NoMeshStillSucceeds | apps/sample/trimesh_inertia/urdf_from_file.cpp:58 | arguments without a mesh give exit 0 and no link |
| UrdfFromFile.SuccessfulRunLinks | apps/sample/trimesh_inertia/urdf_from_file.cpp:138-157 | one report per mesh argument; report j is named `argv[j+1]` and refers to "model://" + `argv[j+1]` |
| UrdfFromFile.SuccessfulRunMass | apps/sample/trimesh_inertia/urdf_from_file.cpp:146 | with a mesh, the link masses add up to the target mass and each lies in [0, target mass] |
| UrdfFromFile.ProgramReport | apps/sample/trimesh_inertia/urdf_from_file.cpp:138-160 | on success, report j is the normaliser's report of link j |
| UrdfFromFile.SuccessfulRunLinkMass | apps/sample/trimesh_inertia/urdf_from_file.cpp:123-146 | the mass is the last positive token or 1.0; the total volume is the sum of the meshes' absolute volumes; link j's mass is mesh j's absolute volume times mass / volume |
| UrdfFromFile.SuccessfulRunLinkTensor | apps/sample/trimesh_inertia/urdf_from_file.cpp:141 | link j's tensor is mesh j's unit-density tensor scaled by mass / volume |
| UrdfFromFile.SuccessfulRunLinkOrigins | apps/sample/trimesh_inertia/urdf_from_file.cpp:143-155 | link j's visual origin is its joint offset under the last joint file; its inertial origin is mesh j's centre of mass plus that offset |
| UrdfFromFile.LinkNameQuirk | apps/sample/trimesh_inertia/urdf_from_file.cpp:140 | with a mass token before one mesh, the single link is named after the mass token and not the mesh |

## Left out

- Mesh types, importers and the inertia integral (:36-46, :104, :112, :119-128) are not modelled. They become the oracle `Environment.importMesh`. No formula for volume, centre of mass or tensor is claimed.
- File I/O (:80-83, :97): a joint file is given as its lines without line breaks. A file that cannot be opened is given as no lines.
- DecimalParse.Atof: hexadecimal floats, `inf`, `infinity` and `nan` (in any case) and the range of `double` are not modelled. A token such as "info.dae" reads as 0 here, where C's `atof` gives infinity and the program takes it as the mass.
- DecimalParse.NonNumericReadsZero: requires that the token does not start with "inf" or "nan" in any case, because C reads those as infinity or NaN, which exact reals do not have.
- Arguments.PathIsNotMass: requires the same, for the same reason.
- DecimalParse.AtofOfDecimal: stated only when the text after the fraction does not start with `e` or `E`. An exponent there scales the reading (`ExponentIsApplied`, `NegativeExponentIsApplied`).
- `static_cast<float>` (:92, :141) and double rounding are not modelled, because the model computes in exact reals. Mass conservation holds only in exact arithmetic.
- `printf` output (:60, :71, :79, :85, :106, :114, :125-127, :132, :140-159) is not modelled. Only the printed quantities are, as `LinkReport` fields. The printed tensor entries are entries [0][0], [0][1], [0][2], [1][1], [1][2] and [2][2] of the scaled `Mat3`.
- `GL/gl.h` (:30) is unused by the program.
- UrdfFromFile.Run: requires `NonDegenerate`: the loop stops early, or there is no mesh, or some mesh has a non-zero volume. Only a run whose meshes all have volume zero is excluded. There the source divides by zero (:141, :146), and exact reals have no infinity or NaN.
- UrdfFromFile.Run: requires `JointFilesFit`: every joint file the loop opens before it stops has at most six tokens on each line that `getline` reads. A seventh token writes past the six-component record (:92), which is undefined behaviour. `Record` keeps six readings. Files after a failing mesh are never opened and are not constrained.
- JointChain.TwoRecordExample: stated for any two records with those translations. `TwoRecordLiterals` shows that the literal records are such records.
- Normaliser.EmitReports: the loop runs over `ITvector` (:138), whose length equals that of `VolPerLink` by `Consistent`. The `argv[i+1]` index stays in range because there are never more links than arguments.
