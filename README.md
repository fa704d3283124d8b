# fast-equivariant-deconv: a Dafny model of its graph convolutions, sampling and spherical-harmonic utilities

This project models the core of fast-equivariant-deconv. That is the numerical code around its
rotation-equivariant spherical and spatio-spherical convolutions:

- **Chebyshev graph convolution** (`conv_benchmark/utils/graphconv.py`):
  - the recursion `T_k = 2 L T_{k-1} - T_{k-2}` that expands a Laplacian into a polynomial basis,
    in its dense, sparse and precomputed forms;
  - the channel layouts of the einsum and matmul paths of `ChebConv`;
  - the isotropic-kernel index built from squared distances (`get_index`);
  - the kernel fusions of the SE(3)×SO(3) layers and the `Precomputer`;
  - the layer dispatch of `Conv` and `ConvPrecomputed`;
  - the `state_dict` filter, `PolynomialFeatures`, and the spatial grids of the Bekkers layers.
- **Sampling** (`conv_benchmark/utils/sampling.py`):
  - the spherical-harmonic degree derived from the vertex count;
  - the real SH matrix fill;
  - the hemisphere split and antipodal folding of the Laplacian;
  - the HEALPix U-Net hierarchy: pooling schedule, patch sizes and Laplacian resolutions.
- **Shell transforms** (`model/shutils.py`):
  - the per-shell signal/SH transforms (`ShellComputeSignal`, `ShellComputeSHC`);
  - the fibre-bundle edge attributes (`invariant_attr_r3s2_fiber_bundle`).

Tensors are modelled as sequences of exact reals (`LinAlg.Matrix` is `seq<seq<real>>`), so every
identity is proved over the reals rather than over floating point. Loops that update state in the
source become Dafny methods with loop invariants, each proved equal to a specification function.
Pure index arithmetic and tensor algebra become functions and lemmas.

Modules:

| module | what it holds |
|---|---|
| `Outcomes` | the Python exceptions the model can raise, plus `Result` and `Option` |
| `LinAlg` | sums, matrices, products, associativity and distributivity |
| `SparseCoo` | COO sparse matrices and their sparse-dense product |
| `FlatIndex` | row-major index arithmetic |
| `Chebyshev` | the Chebyshev recursion and the three ways of computing it |
| `ChannelLayout` | `ChebConv` and its channel layouts |
| `Isotropic` | `get_index` and the isotropic kernel collapse |
| `Fusion` | the SE(3)×SO(3) kernel fusion and `Precomputer` |
| `ConvConfig` | dispatch, the `state_dict` filter, `PolynomialFeatures`, the Bekkers grid |
| `ShDegree` | the SH degree, coefficient counts and the constant (degree-0) transforms |
| `ShMatrix` | the real SH matrix fill |
| `Hemisphere` | the hemisphere split and the antipodal fold |
| `Hierarchy` | the pooling schedule and the Laplacian list |
| `ShellTransforms` | the per-shell signal/SH transforms |
| `FiberBundle` | the fibre-bundle edge attributes |

## Model

| member | source | states |
|---|---|---|
| Chebyshev.ProjectChebBasisDense | conv_benchmark/utils/graphconv.py:486-506 | the dense loop returns max(K, 1) terms, term k being the k-th Chebyshev term `T_k(L) x` of the recursion |
| Chebyshev.ProjectChebBasis | conv_benchmark/utils/graphconv.py:464-484 | the sparse loop returns max(K, 1) terms, term k being the k-th Chebyshev term of the densified Laplacian applied to x |
| Chebyshev.SparseChebStep | conv_benchmark/utils/graphconv.py:481 | one sparse step `2 L x_{k-1} - x_{k-2}` yields the k-th term of the dense recursion |
| Chebyshev.PrecomputeProjection | conv_benchmark/utils/graphconv.py:653-660 | the precomputation succeeds iff K > 0 and then returns K matrices, the k-th being the Chebyshev polynomial `T_k(L)` |
| Chebyshev.ChebPolyApply | conv_benchmark/utils/graphconv.py:653-660 | applying the precomputed `T_k(L)` to x gives the k-th term of the on-the-fly recursion |
| Chebyshev.ChebPolyCommutes | conv_benchmark/utils/graphconv.py:653-660 | `T_k(L)` commutes with L |
| Chebyshev.ChebPolySymmetric | conv_benchmark/utils/graphconv.py:653-660 | `T_k(L)` is symmetric when L is |
| Chebyshev.FlatProjector | conv_benchmark/utils/graphconv.py:33 | the flattened projector is a K·V × V matrix |
| Chebyshev.FlatBlockIsTransposed | conv_benchmark/utils/graphconv.py:151-153 | the matmul with the flattened projector yields, per k, the transposed polynomial applied to x |
| Chebyshev.EinsumIsTransposed | conv_benchmark/utils/graphconv.py:144 | the einsum with the stacked projector yields, per k, the transposed polynomial applied to x |
| Chebyshev.PrecomputedPathsAreCheb | conv_benchmark/utils/graphconv.py:30-34 | for a symmetric L, both precomputed paths equal the on-the-fly recursion |
| Chebyshev.TransposedSlicesAreCheb | conv_benchmark/utils/graphconv.py:30-34 | for a symmetric L the K slices T_k(L)ᵀ·x0 of the precomputed projector are the recurrence's Chebyshev terms |
| SparseCoo.SparseMMIsDense | conv_benchmark/utils/graphconv.py:478 | the COO sparse-dense product equals the dense product with the densified matrix |
| SparseCoo.ToDense | conv_benchmark/utils/graphconv.py:28 | densifying the sparse Laplacian yields a rows × cols matrix |
| ChannelLayout.X0At | conv_benchmark/utils/graphconv.py:155-156 | the input reshaped to V × (Fin·B·S) holds input entry (b, f, v, s) at column `Column(b, f, s)` |
| ChannelLayout.StackedAtIndex | conv_benchmark/utils/graphconv.py:158-159 | the stacked Chebyshev tensor holds term k of input channel f at stack index `(row·K + k)·Fin + f` |
| ChannelLayout.MatmulIsReference | conv_benchmark/utils/graphconv.py:171-174 | the `torch.mm` path's output equals the reference `Σ_{k,f} T_k x[b,f] · W[k][f][g]` |
| ChannelLayout.EinsumIsReference | conv_benchmark/utils/graphconv.py:161-164 | the einsum path after the precompute einsum pairs channel `f·K + k` with weight row `f·K + k`, and its output equals the reference |
| ChannelLayout.ContractIsReference | conv_benchmark/utils/graphconv.py:161-174 | on the precomputed paths and on the matmul path the weight contraction equals the reference |
| ChannelLayout.AsWrittenSwapsAxes | conv_benchmark/utils/graphconv.py:155-164 | with one batch, channel and voxel and K = V, the as-written einsum sums weight (g, c) against term v of vertex c: the vertex and order axes are swapped |
| ChannelLayout.ExampleReference | conv_benchmark/utils/graphconv.py:159-164 | on the two-vertex example the reference output at vertex 0 is 1 |
| ChannelLayout.AsWrittenDiffers | conv_benchmark/utils/graphconv.py:159-164 | on the same example the as-written einsum contraction yields 0 |
| ChannelLayout.ChebConvEinsumDiffers | conv_benchmark/utils/graphconv.py:159-164 | the non-precomputed einsum output of `ChebConv` on that example is 0, where the reference is 1 |
| ChannelLayout.CorrectedIsReference | conv_benchmark/utils/graphconv.py:159-164 | with the permute to `[B, Fin, K, V, …]` added, each output entry equals the reference |
| ChannelLayout.ContractCorrectedIsReference | conv_benchmark/utils/graphconv.py:159-164 | the corrected contraction equals the reference on every path |
| ChannelLayout.SlicesAreCheb | conv_benchmark/utils/graphconv.py:141-159 | the slices a path computes are the Chebyshev terms of x0 on the recurrence paths for any L, and on the precomputed paths when L is symmetric |
| ChannelLayout.ChebSlices | conv_benchmark/utils/graphconv.py:142-159 | for any Laplacian, the dense and sparse paths return the K Chebyshev terms T_k(L)·x0 and both precomputed paths return T_k(L)ᵀ·x0; for a symmetric Laplacian every path returns the Chebyshev terms |
| ChannelLayout.ChebConv | conv_benchmark/utils/graphconv.py:123-175 | for any Laplacian, the forward pass returns the contraction, selected by the precompute and einsum flags, of the K slices its projection path computes from the reshaped input |
| ChannelLayout.ChebConvIsReference | conv_benchmark/utils/graphconv.py:123-175 | on the precomputed paths and on the matmul path every output entry equals the reference `Σ_{k,f} T[k] x[b,f] · W[k][f][g]` over the computed slices T, for any Laplacian; over the Chebyshev terms `T_k(L) x` on the recurrence path always, and on the precomputed paths when L is symmetric |
| ChannelLayout.ChebConvCorrected | conv_benchmark/utils/graphconv.py:154-164 | for any Laplacian, the corrected forward pass returns the corrected contraction of the K slices its projection path computes |
| ChannelLayout.ChebConvCorrectedIsReference | conv_benchmark/utils/graphconv.py:154-164 | every output entry of the corrected forward pass equals the reference over the computed slices on every path, and over the Chebyshev terms on the recurrence paths and, for a symmetric L, on the precomputed paths |
| Isotropic.KeyIsFourDistSq | conv_benchmark/utils/graphconv.py:292-294 | the key `(x - c)²+…`, taken on the doubled grid, is four times the squared distance to the centre |
| Isotropic.BucketsProps | conv_benchmark/utils/graphconv.py:295 | the distinct keys are strictly increasing, and a value is one of them iff some grid point has that key |
| Isotropic.UniqueProps | conv_benchmark/utils/graphconv.py:295 | `unique` returns a sorted list without duplicates, with the same elements as its input |
| Isotropic.BucketKey | conv_benchmark/utils/graphconv.py:295 | every grid point's bucket index is in range and names its own key |
| Isotropic.BucketOrder | conv_benchmark/utils/graphconv.py:294-295 | a point closer to the centre gets a bucket index no larger than one farther away, and strictly smaller when strictly closer |
| Isotropic.BucketsAreDistances | conv_benchmark/utils/graphconv.py:295 | every bucket index is the bucket of some grid point |
| Isotropic.MaskOneHot | conv_benchmark/utils/graphconv.py:296-298 | a grid point's mask row sums to one over the buckets |
| Isotropic.GetIndex | conv_benchmark/utils/graphconv.py:291-299 | the triple loop returns the sorted distinct keys and a mask whose every entry is one at the point's own bucket and zero elsewhere |
| Isotropic.CollapseIsBucketWeight | conv_benchmark/utils/graphconv.py:310 | multiplying the weights by the mask gives each grid point the weight of its own distance bucket |
| Isotropic.CollapseIsotropic | conv_benchmark/utils/graphconv.py:310 | two grid points at the same distance from the centre get the same kernel weight |
| Isotropic.CollapseSameKey | conv_benchmark/utils/graphconv.py:310 | points with equal keys get equal weights |
| Isotropic.CollapseSymmetric | conv_benchmark/utils/graphconv.py:310 | the collapsed kernel is unchanged by swapping two axes or reflecting any axis about the centre |
| Fusion.FlattenEntry | conv_benchmark/utils/graphconv.py:368 | `flatten` of the channel and kernel axes puts entry (f, k) at `f·c + k` |
| Fusion.SpatialLayoutEntry | conv_benchmark/utils/graphconv.py:365-368 | both `repeat_interleave` and `expand` + `flatten` put the spatial weight `w[o][f]` at channel `f·k + j` |
| Fusion.SpatialLayoutsAgree | conv_benchmark/utils/graphconv.py:365-368 | the two spatial layouts are equal |
| Fusion.FusedEntry | conv_benchmark/utils/graphconv.py:364-369 | each fused kernel entry at channel `f·k + j` is the product of the spherical weight `wSph[o][f][j]` and the spatial weight `wSpa[o][f][q]` |
| Fusion.FusedLayoutsAgree | conv_benchmark/utils/graphconv.py:364-369 | both layouts give the same fused kernel |
| Fusion.Se3So3Kernel | conv_benchmark/utils/graphconv.py:364-369 | the fused kernel has shape Fout × (Fin·K) × P |
| Fusion.PrecomputerKernel | conv_benchmark/utils/graphconv.py:877-886 | the `Precomputer` kernel has shape Fout × (Fin·K) × P, or × 1 for a one-point spatial kernel |
| Fusion.PrecomputerMatchesSe3So3 | conv_benchmark/utils/graphconv.py:877-884 | for a spatial kernel larger than one point, the `Precomputer` kernel equals the SE(3)×SO(3) fused kernel |
| Fusion.PrecomputerPointKernel | conv_benchmark/utils/graphconv.py:885-886 | for a one-point spatial kernel the `Precomputer` ignores the spatial weights and passes each spherical weight through |
| ConvConfig.ConvLayer | conv_benchmark/utils/graphconv.py:37-44 | an unknown convolution name raises `NotImplementedError` |
| ConvConfig.ConvPrecomputedLayer | conv_benchmark/utils/graphconv.py:590-626 | an unknown convolution name raises `NotImplementedError` |
| ConvConfig.DispatchAgrees | conv_benchmark/utils/graphconv.py:590-626 | `Conv` accepts exactly its five names; `ConvPrecomputed` accepts those and the two Bekkers names, and on the shared names picks the precomputed counterpart of the `Conv` layer |
| ConvConfig.FilterStateDict | conv_benchmark/utils/graphconv.py:46-58 | the two-pass filter (collect the keys ending with the suffix, then delete them) returns the entries whose keys do not end with it, in order |
| ConvConfig.KeptMember | conv_benchmark/utils/graphconv.py:693-705 | an entry survives the filter iff it was in the dictionary and its key does not end with the suffix |
| ConvConfig.WeightTmpKept | conv_benchmark/utils/graphconv.py:51-58 | the `weight_tmp` mask entries survive both the `laplacian` and the `projector` filters |
| ConvConfig.PolynomialFeatures | conv_benchmark/utils/graphconv.py:1135-1140 | the loop returns the concatenation of the flattened tensor powers `x, x⊗x, …` up to the degree |
| ConvConfig.OuterEntry | conv_benchmark/utils/graphconv.py:1139 | the flattened outer product holds `a[i]·b[j]` at `i·|b| + j` |
| ConvConfig.FeaturesLength | conv_benchmark/utils/graphconv.py:1137-1140 | the feature vector has length `Σ_{m=1..d} n^m` |
| ConvConfig.FeatureCountClosedForms | conv_benchmark/utils/graphconv.py:1091-1092 | for 2 inputs the count is `2(2^d - 1)`, and for 1 input it is d |
| ConvConfig.LinearSizesMatch | conv_benchmark/utils/graphconv.py:1091-1092 | at degree 3 the spatial MLP's input (2 features) has 14 entries and the spherical one's (1 feature) has 3, the sizes the linear layers are built with |
| ConvConfig.GridSymmetric | conv_benchmark/utils/graphconv.py:1059-1061 | the grid coordinates are antisymmetric: index `k-1-i` has the negated coordinate of index i |
| ConvConfig.OddCentreIsOrigin | conv_benchmark/utils/graphconv.py:1062-1064 | for an odd kernel size the flat centre index is in range and lands on the origin |
| ConvConfig.EvenCentreIsOffCentre | conv_benchmark/utils/graphconv.py:1062-1064 | for an even kernel size the flat centre index lands off the origin, and no grid coordinate is 0 |
| ShDegree.DerivedDegreeIsLargest | conv_benchmark/utils/sampling.py:360 | for N ≥ 2 the derived degree is even and the largest such with `(L+1)(L/2+1) ≤ N-1` coefficients |
| ShDegree.SingleVertexDegree | conv_benchmark/utils/sampling.py:360 | a single vertex gives degree 0 (one coefficient) |
| ShDegree.S2SHWithinSH2S | conv_benchmark/utils/sampling.py:371-376 | the S2SH degree is defined and never exceeds the SH2S degree, the derived degree or the given maximum |
| ShDegree.S2SHBelowVertexCount | conv_benchmark/utils/sampling.py:372-376 | for N ≥ 2 the S2SH has fewer coefficients than vertices |
| ShDegree.ConstS2SH | conv_benchmark/utils/sampling.py:364 | the constant S2SH is a V × 1 matrix |
| ShDegree.ConstSH2S | conv_benchmark/utils/sampling.py:365-366 | the constant SH2S is a `(L+1)(L/2+1)` × V matrix |
| ShDegree.ConstantAnalyse | conv_benchmark/utils/sampling.py:364 | analysing with the constant S2SH gives `√(4π)` times the signal mean |
| ShDegree.ConstantSynthesise | conv_benchmark/utils/sampling.py:365-366 | synthesising with the constant SH2S gives coefficient 0 divided by `√(4π)` at every vertex |
| ShDegree.ConstantShellMean | conv_benchmark/utils/sampling.py:363-366 | analysis followed by synthesis with the constant matrices maps every vertex to the signal mean |
| ShMatrix.ShMatrixFill | conv_benchmark/utils/sampling.py:452-465 | `_sh_matrix` returns its ValueError cases, or the matrix whose row for pair (l, m) holds the real SH basis value at every direction |
| ShMatrix.FillColumn | conv_benchmark/utils/sampling.py:454-465 | one direction's loop fills that column with the basis value of every pair and leaves the other columns unchanged |
| ShMatrix.FillDegree | conv_benchmark/utils/sampling.py:456-465 | one degree's loop fills the rows of its 2·\|m\|max + 1 orders, m ascending, and returns the next row index |
| ShMatrix.ShMatrixOutcome | conv_benchmark/utils/sampling.py:429-432 | the result is a ValueError iff `with_order` is not 0 or 1 or the degree is odd in symmetric mode, and otherwise has one row per coefficient and one column per direction |
| ShMatrix.PairsCount | conv_benchmark/utils/sampling.py:441-450 | the number of (l, m) pairs equals the source's coefficient count in all four modes |
| ShMatrix.PairsLength | conv_benchmark/utils/sampling.py:455-456 | the pairs up to the n-th degree number n, `n(2n-1)` or `n²` by mode |
| ShMatrix.PairAt | conv_benchmark/utils/sampling.py:454-465 | the row written at position i of degree block j holds (the j-th degree, `i - half-width`) |
| ShMatrix.PairsValid | conv_benchmark/utils/sampling.py:455-456 | every row is labelled by one of the loop's degrees and an order within its range |
| ShMatrix.SymmetricRow | conv_benchmark/utils/sampling.py:455-456 | in symmetric mode with orders, the pair (d, m) is in row `d(d+1)/2 + m` |
| Hierarchy.NextPatchIsWindowCount | conv_benchmark/utils/sampling.py:164-167 | the next patch is p/2 for even p and p-1 for odd p; for p ≥ 2 it equals the number of windows of the chosen kernel and stride, and is strictly smaller than p |
| Hierarchy.PatchRealValue | conv_benchmark/utils/sampling.py:167 | the float expression for the next patch equals `p/2` for even p and `p - 1` for odd p |
| Hierarchy.HealpixPoolings | conv_benchmark/utils/sampling.py:123-228 | the loop returns the specified schedule of poolings and patch sizes, coarsest first |
| Hierarchy.PoolStepChanges | conv_benchmark/utils/sampling.py:160-174 | each step keeps the patch or shrinks it to the next patch size, and keeps `n_side` or halves it |
| Hierarchy.RunLengths | conv_benchmark/utils/sampling.py:137-175 | after k rounds the loop holds k poolings and k patch sizes |
| Hierarchy.ScheduleLengths | conv_benchmark/utils/sampling.py:134-228 | for the looping pooling names, `get_healpix_poolings` returns depth-1 poolings and depth patch sizes |
| Hierarchy.SchedulePatchesAscend | conv_benchmark/utils/sampling.py:227-228 | the returned patch sizes end with the starting patch, never decrease from coarsest to finest, and stay at least 1 |
| Hierarchy.SphericalResolution | conv_benchmark/utils/sampling.py:202-203 | spherical pooling halves a power-of-two `n_side` once per round |
| Hierarchy.HealpixLaplacians | conv_benchmark/utils/sampling.py:56-121 | the loop returns the graphs at `starting // 2**i`, or at `starting` for spatial poolings, reversed so the coarsest comes first |
| Hierarchy.LaplacianOrder | conv_benchmark/utils/sampling.py:121 | in the returned list the resolution never decreases from first to last, and the finest graph is at the starting resolution |
| Hierarchy.LaplaciansMatchPoolings | conv_benchmark/utils/sampling.py:70 | for spherical pooling, the graph at each depth has the `n_side` the pooling schedule reaches there |
| Hierarchy.HalvingsOfPow2 | conv_benchmark/utils/sampling.py:70 | repeated floor halving of `2^e` gives `2^(e-i)` |
| Hemisphere.ExactlyOneHemisphere | conv_benchmark/utils/sampling.py:43 | away from the thresholds, exactly one of a point and its antipode is kept, unless the point is within eps of the origin, when neither is |
| Hemisphere.OnThresholdInNeither | conv_benchmark/utils/sampling.py:43 | a point whose z is exactly eps is kept neither itself nor as its antipode |
| Hemisphere.NorthIndicesProps | conv_benchmark/utils/sampling.py:43-44 | the kept indices are strictly increasing, in range, and exactly the northern vertices |
| Hemisphere.NorthSplits | conv_benchmark/utils/sampling.py:80-86 | on an antipodal sampling, the kept indices and their antipodes are disjoint, duplicate-free and cover every vertex |
| Hemisphere.Fold | conv_benchmark/utils/sampling.py:86 | the folded Laplacian is a square matrix over the kept vertices |
| Hemisphere.FoldActsOnEvenSignals | conv_benchmark/utils/sampling.py:80-86 | on a signal equal at antipodes, the folded Laplacian on the kept vertices acts as the full Laplacian does at those vertices |
| Hemisphere.HalfKept | conv_benchmark/utils/sampling.py:45 | on an antipodal sampling exactly half the vertices are kept |
| ShellTransforms.ContractEntry | model/shutils.py:22 | each contracted entry is the sum over vertices of signal times matrix, and the result has the contracted shape |
| ShellTransforms.ContractRoundTrip | model/shutils.py:44 | synthesis after analysis is one contraction with the product S2SH·SH2S |
| ShellTransforms.ConstantShellRoundTrip | model/shutils.py:22-44 | with the constant matrices, synthesis after analysis maps every vertex to the signal mean |
| ShellTransforms.RankOfMember | model/shutils.py:76 | entry r of a shell's member list is a vertex of that shell, and r is its rank |
| ShellTransforms.GatherReadsOnlyShell | model/shutils.py:107 | two inputs that agree on a shell's vertices gather to the same values |
| ShellTransforms.Take | model/shutils.py:76 | `[:C]` keeps min(C, rows) rows |
| ShellTransforms.ShellComputeSignal | model/shutils.py:66-77 | the per-shell loop returns the specified scatter of every shell's synthesis, or the error that stopped it; a one-row `SH2S[:C]` is broadcast over the C coefficients as the einsum does, and a one-column result over the shell's vertices as the mask assignment does |
| ShellTransforms.SignalOutcome | model/shutils.py:73-77 | the loop succeeds iff the input has enough shells and every SH2S fits its shell: C rows or a size-1 axis the einsum broadcasts, and one column per vertex or a single column the assignment broadcasts. It then returns the closed-form scatter |
| ShellTransforms.ShellSignalBroadcast | model/shutils.py:76 | with a one-row SH2S, each vertex of the shell receives SH2S[0][w] times the sum of the C coefficients |
| ShellTransforms.EinsumRowsBroadcast | model/shutils.py:76 | a single SH2S row is read for every one of the C coefficients |
| ShellTransforms.ShellSignalColumnBroadcast | model/shutils.py:76 | with a one-column SH2S, every vertex of the shell receives the same value, the C coefficients against that column |
| ShellTransforms.BroadcastEntry | model/shutils.py:76 | assigning a one-column result repeats it across the place, and a result of the right width is kept |
| ShellTransforms.ScatterThenGather | model/shutils.py:75-76 | gathering shell i from the result gives exactly shell i's synthesis |
| ShellTransforms.ShellCoefficientsIsolated | model/shutils.py:106-107 | inputs that agree on a shell's vertices give that shell the same coefficients |
| ShellTransforms.ShellComputeSHC | model/shutils.py:98-108 | the forward loop returns the specified stack of per-shell analyses, or the error that stopped it; the einsum fails only when the S2SH rows and the shell's vertices differ and neither is 1 |
| ShellTransforms.ShcRowBroadcast | model/shutils.py:107 | with a one-row S2SH, coefficient j is S2SH[0][j] times the sum of the shell's vertices |
| ShellTransforms.ShcVertexBroadcast | model/shutils.py:107 | for a one-vertex shell, coefficient j is that vertex's value times the sum of S2SH's column j |
| ShellTransforms.ShcAsWrittenNeverRuns | model/shutils.py:83-108 | as written, the constructor or the forward pass fails for every argument: `TypeError` for a `ShellSampling`, `AttributeError` for a non-empty list |
| ShellTransforms.ShcCorrectedRuns | model/shutils.py:105-107 | with the corrected constructor and well-formed shells whose S2SH widths are C or 1, the loop succeeds with the closed-form stack |
| ShellTransforms.ShcCorrectedForward | model/shutils.py:105-107 | the corrected module has one slot per shell, and the forward pass returns each shell's coefficients, broadcast when it has one column |
| FiberBundle.EdgeAttrs | model/shutils.py:115-124 | the attributes are computed iff every edge endpoint is in range (otherwise `IndexError`), with one row per edge and one entry per orientation |
| FiberBundle.ResidualOrthogonal | model/shutils.py:124 | for a unit orientation the residual is orthogonal to it |
| FiberBundle.AttrPythagoras | model/shutils.py:123-124 | the squared along- and across-components add up to the squared edge length |
| FiberBundle.SelfEdge | model/shutils.py:116-124 | a self-loop has zero attributes |
| FiberBundle.TranslationInvariant | model/shutils.py:115-125 | translating every position leaves all attributes unchanged |
| FiberBundle.OriAttrsSymmetric | model/shutils.py:125 | the orientation attributes are symmetric, with 1 on the diagonal for unit orientations |
| FiberBundle.RotationInvariant | model/shutils.py:123-124 | rotating an edge and an orientation together leaves both components unchanged |
| FiberBundle.InvariantAttrRotation | model/shutils.py:115-125 | rotating all positions and orientations together leaves all attributes unchanged, for any norm that depends only on the squared length |

## Left out

- `sph_harm`, `sqrt`, `pinv` and the matrix inverse are parameters of the model. The model proves what holds for any basis function, not for the SciPy functions. The full S2SH inverse is therefore not computed; only its constant (degree-0) case is modelled concretely.
- FiberBundle: `torch.norm` is a parameter `norm`. The lemmas that need it state the property they use (zero at the origin, a function of the squared length).
- Floating point, including the `eps` comparisons' rounding. All arithmetic is over exact reals and unbounded integers; only the float-to-int truncation of the patch size is written out.
- External graph construction: the `SphereHealpix` graphs and `prepare_laplacian`, and the pooling-layer classes (`HealpixPooling`, `MixedPooling`, `SpatialPooling`). These are external code. The graph builder is a parameter, and a pooling is its constructor arguments.
- The hemisphere pooling arguments of `get_healpix_poolings`.
- `conv3d` and the spatial convolution itself; the bias; the Kaiming initialisation; `print` calls. These are framework operations or I/O.
- `ShellSampling`'s loading of files, the `affine`, and `np.rint` of the b-values. These are file I/O and floating point.
- `train.py` (the training driver).
- Tensor storage: the model uses index maps, so strides, `contiguous`, `view` and in-place aliasing between views are not modelled.
- ChannelLayout.ChebSlices: requires K > 0. For K = 0 the source fails: `precompute_projection` raises `IndexError` writing `projector[0]` of an empty tensor (graphconv.py:655), and the recurrence path raises `RuntimeError` at the `.view([K, V, …])` reshape of its single slice (graphconv.py:158). Neither failure is modelled here.
- ChannelLayout.ChebConvIsReference: for any Laplacian the output is the reference contraction of the slices the chosen path computes; the precomputed paths compute T_k(L)ᵀ·x0, which is the Chebyshev projection T_k(L)·x0 only for a symmetric Laplacian. The Laplacian is built by external graph code that is not part of this model; it is assumed symmetric wherever the recurrence is claimed.
- ShellTransforms.ShellComputeSignal, ShellTransforms.SignalOutcome, ShellTransforms.ShellComputeSHC: a matrix is a sequence of rows, so an SH2S or S2SH with no rows carries no column count, and the assignment's width check cannot be made faithfully for it. The signal path takes such an SH2S to fit; the coefficient path reads such an S2SH's width as 0. A sampling with non-empty shells never builds one.
- FiberBundle.EdgeAttrs: edge endpoints are natural numbers, so torch's wrap-around of negative indices in `pos[edge_index[0]]` is not modelled. The graphs the source builds have no negative indices.
- Hierarchy.Halvings: `starting // 2**i` is modelled as i floor halvings, which is the same natural number.
- Where the code and its documented intent differ, the model follows the code:
  - The derived SH degree keeps the coefficient count strictly below the vertex count (sampling.py:360), although the comment says "at most".
  - An odd patch size p gives a next patch of p − 1, from the float expression at sampling.py:167. A floor-based reading gives p − 2.
  - The constant SH2S has `(L+1)(L/2+1)` rows.
  - The `state_dict` filter drops only keys ending in the given suffix, so the registered `weight_tmp` buffers stay in the saved state; a design that saves only trainable parameters would drop them.
  - An even Bekkers kernel has no grid point at the origin.
  - Points exactly at ±eps fall in neither hemisphere.

## Findings

| source | as written | input that shows it | evidently intended | confidence | as-written member | corrected member |
|---|---|---|---|---|---|---|
| conv_benchmark/utils/graphconv.py:163 | the non-precomputed einsum path reshapes the `[B, V, X, Y, Z, K, Fin]` stack straight to `[B, Fin·K, V, …]` without a permute, so weights meet the wrong (vertex, channel) terms | B = Fin = Fout = 1, V = K = 2, L = I, x = (1, 0), W = [[[0]], [[1]]]: output 0 at vertex 0, the reference gives 1 | permute to `[B, Fin, K, V, …]` before the reshape | high; not executed | ChannelLayout.ChebConvEinsumDiffers | ChannelLayout.ChebConvCorrectedIsReference |
| model/shutils.py:90-91 | `ShellComputeSHC.__init__` calls `len()` on, and iterates, the `ShellSampling` object, which defines neither; `forward` reads `.sampling` and `.shell_inverse`, which a plain list lacks | any argument: a `ShellSampling` raises `TypeError` in the constructor; a non-empty list raises `AttributeError` in `forward`; an empty list raises `UnboundLocalError` | iterate `shellSampling.sampling` in the constructor | not executed | ShellTransforms.ShcAsWrittenNeverRuns | ShellTransforms.ShcCorrectedForward |

