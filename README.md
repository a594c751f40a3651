# Verified model of a volume-deformation viewer's core

This project models, in Dafny, the non-graphical core of a C++/Qt viewer for 3D images
and tetrahedral meshes. The viewer reads image stacks (TIFF, DIM/IMA), shows their slices
and value ranges, and deforms a tetrahedral mesh with a cage or with as-rigid-as-possible
(ARAP) constraints. The model covers the bookkeeping around those features:

- the tetrahedral lattice and its face adjacency (`TetrahedralMesh`), and the legacy
  neighbourhood mesh (`LegacyTetMesh`);
- the grid reader's FIFO cache and task counter (`GridReader`), its string and
  downsampling helpers (`ReaderHelpers`), and the bounds-checked voxel grid
  (`DiscreteGridModel`);
- sample conversion, DIM slice extraction and the choice of reader (`ImageSlices`);
- the TIFF reader, writer and backend (`TiffReader`, `TiffWriter`, `TiffBackend`), and
  the generic reader API on top of them (`GenericReader`);
- the Wavefront OBJ parser (`ObjReader`);
- the deformation tools:
  - the ARAP interface's selected and fixed flags (`MeshManipInterface`);
  - the simple manipulator's point registry (`SimpleManipulatorModel`);
  - the rectangle selection (`SelectionTool`);
  - the grid viewer's manipulators and marker state machine (`MeshManipulators`);
  - the ARAP controller's constraint lists and button ladder (`ARAPControl`);
  - the cage LRI set-up (`CageLRI`);
- display bookkeeping: the value-range visibility map (`DrawableGridModel`), the planar
  viewer's slice cache (`Image3DViewerModel`) and the scene's lookups, planes and ranges
  (`SceneModel`).

Helper modules: `Wrappers` (an Option type for null pointers and "not found"), `CInt`
(C's truncating division and 32-bit unsigned casts) and `Lattice` (row-major indexing).

Where a class of the source updates its fields in place, the model is a Dafny `class`
whose methods are proved against specification functions. Pure computations are
functions and lemmas. Files, libtiff, the camera and floating-point geometry enter as
parameters. Where the written description of the system disagrees with the C++ code, the
model follows the code.

## Model

| member | source | states |
|---|---|---|
| TetrahedralMesh.IdxOfPtInFace | grid/geometry/tetrahedral_mesh.cpp:12-15 | the vertex slot for point p of face f is one of the four slots and never f itself |
| TetrahedralMesh.FaceSlotsArePermutation | grid/geometry/tetrahedral_mesh.cpp:12-15 | the three slots of face f together with f are exactly {0, 1, 2, 3} |
| TetrahedralMesh.From3DTo1D | grid/geometry/tetrahedral_mesh.cpp:17-19 | the vertex index x + (nx+1)·y + (nx+1)(ny+1)·z is non-negative for lattice points |
| TetrahedralMesh.IdxTo3D | grid/geometry/tetrahedral_mesh.cpp:104-106 | the decoded point has x below h, y below w and a non-negative z |
| TetrahedralMesh.IdxTo3DInvertsFrom3DTo1D | grid/geometry/tetrahedral_mesh.cpp:17-106 | idxTo3D undoes from3DTo1D on every lattice point |
| CInt.TruncDiv | grid/geometry/tetrahedral_mesh.cpp:104-106 | C's `/` on int: the quotient's magnitude is the Euclidean quotient of the magnitudes, its sign is the product of the operands' signs, and it agrees with Dafny's `/` for a non-negative dividend and positive divisor |
| CInt.TruncMod | grid/geometry/tetrahedral_mesh.cpp:104-106 | C's `%` on int: the remainder takes the dividend's sign, is smaller than the divisor in magnitude, and completes the division: a == (a / b) * b + a % b |
| TetrahedralMesh.From3DTo1DInRange | grid/geometry/tetrahedral_mesh.cpp:17-232 | every lattice point indexes inside the (nx+1)(ny+1)(nz+1) vertex array |
| TetrahedralMesh.From3DTo1DInjective | grid/geometry/tetrahedral_mesh.cpp:17-19 | two lattice points with the same index are the same point |
| TetrahedralMesh.CubeCornersValid | grid/geometry/tetrahedral_mesh.cpp:40-88 | the eight corner indices of a cube are in range and pairwise distinct |
| TetrahedralMesh.DecomposeCube | grid/geometry/tetrahedral_mesh.cpp:273-289 | a cube becomes six tetrahedra whose corners are the listed cube slots and whose neighbours are all -1 |
| TetrahedralMesh.CubeSplitCornersDistinct | grid/geometry/tetrahedral_mesh.cpp:273-289 | no tetrahedron of the cube split uses the same cube corner twice |
| TetrahedralMesh.Sort3Sorts | grid/geometry/tetrahedral_mesh.cpp:307-339 | the Face constructor stores its three indices ascending, as a rearrangement of the given ones |
| TetrahedralMesh.Sort3OrderInsensitive | grid/geometry/tetrahedral_mesh.cpp:307-339 | any two orderings of the same three indices make the same face |
| TetrahedralMesh.MakeFaceSwapFirst | grid/geometry/tetrahedral_mesh.cpp:307-339 | swapping the first two indices gives the same face |
| TetrahedralMesh.MakeFaceSwapLast | grid/geometry/tetrahedral_mesh.cpp:307-339 | swapping the last two indices gives the same face |
| TetrahedralMesh.FaceLessIsStrictTotalOrder | grid/geometry/tetrahedral_mesh.cpp:307-339 | the lexicographic face order is irreflexive, transitive, total and asymmetric, as a std::map key needs |
| TetrahedralMesh.FirstPosIsFirst | grid/geometry/tetrahedral_mesh.cpp:341-359 | the first occurrence of a face: nothing before it is the same face |
| TetrahedralMesh.LastPosIsLast | grid/geometry/tetrahedral_mesh.cpp:341-359 | the last occurrence of a face: nothing after it is the same face |
| TetrahedralMesh.LinkedNeighborSharesFace | grid/geometry/tetrahedral_mesh.cpp:341-359 | after linking, a face that no other face shares keeps its neighbour; a shared face's neighbour is a tetrahedron holding the same face |
| TetrahedralMesh.LinkedNeighborSymmetric | grid/geometry/tetrahedral_mesh.cpp:341-359 | when a face occurs exactly twice, each of the two tetrahedra is the other's neighbour across it |
| TetrahedralMesh.ScanMapFirst | grid/geometry/tetrahedral_mesh.cpp:341-359 | the face map holds a face iff it has occurred, and maps it to its first occurrence |
| TetrahedralMesh.ScanNeighborsIsLinked | grid/geometry/tetrahedral_mesh.cpp:341-359 | the map-driven scan computes the occurrence-based neighbour relation |
| TetrahedralMesh.ScanMeshIsScanNeighbors | grid/geometry/tetrahedral_mesh.cpp:341-359 | the neighbours of the scanned mesh are those of the scan |
| TetrahedralMesh.LinkAllFaces | grid/geometry/tetrahedral_mesh.cpp:341-359 | the double loop over tetrahedra and faces yields the face map and mesh of the full scan |
| TetrahedralMesh.LinkFace | grid/geometry/tetrahedral_mesh.cpp:345-357 | one face step extends the scan by one face |
| TetrahedralMesh.ScanIsLinked | grid/geometry/tetrahedral_mesh.cpp:341-359 | linking keeps every tetrahedron's corners and faces, and sets the neighbours to the linked relation |
| TetrahedralMesh.SetNeighbor | grid/geometry/tetrahedral_mesh.cpp:350-356 | setting one neighbour changes only that face's entry |
| TetrahedralMesh.BuildCube | grid/geometry/tetrahedral_mesh.cpp:90-102 | corner c of a cube is origin + size × the corner's offset |
| TetrahedralMesh.CubeAtNumber | grid/geometry/tetrahedral_mesh.cpp:235-237 | the q-th cube visited (x fastest) lies in the box and has number cx·cy·k + cx·j + i |
| TetrahedralMesh.GridMeshFresh | grid/geometry/tetrahedral_mesh.cpp:235-289 | every tetrahedron built so far has in-range, distinct corners and no neighbours |
| TetrahedralMesh.WriteCornersEffect | grid/geometry/tetrahedral_mesh.cpp:40-88 | writing a cube's points puts each point at its slot and leaves other vertices alone |
| TetrahedralMesh.GridVerticesPlaced | grid/geometry/tetrahedral_mesh.cpp:235-244 | after q cubes every written vertex sits at its lattice position |
| TetrahedralMesh.LatticePointCovered | grid/geometry/tetrahedral_mesh.cpp:232-244 | after all cubes every lattice point's vertex is at origin + size × point |
| TetrahedralMesh.GridComplete | grid/geometry/tetrahedral_mesh.cpp:232-244 | after all cubes the whole vertex lattice is filled |
| TetrahedralMesh.TetMesh.constructor | grid/geometry/tetrahedral_mesh.cpp:36 | a new mesh has no cubes, vertices or tetrahedra |
| TetrahedralMesh.TetMesh.IsEmpty | grid/geometry/tetrahedral_mesh.cpp:250-252 | empty iff there are no tetrahedra |
| TetrahedralMesh.TetMesh.InTetraIdx | grid/geometry/tetrahedral_mesh.cpp:258-264 | the lowest index of a tetrahedron containing the point, or -1 iff none does |
| TetrahedralMesh.TetMesh.InsertCubeIntoPtGrid | grid/geometry/tetrahedral_mesh.cpp:40-88 | the corner indices are the cube's lattice indices; the eight points are written there and nothing else changes |
| TetrahedralMesh.TetMesh.DecomposeAndAddCube | grid/geometry/tetrahedral_mesh.cpp:268-297 | more than 8 points: nothing; otherwise the six tetrahedra of the cube are appended |
| TetrahedralMesh.TetMesh.PlaceRow | grid/geometry/tetrahedral_mesh.cpp:237-243 | one row of cubes extends the built grid by nbCube.x cubes |
| TetrahedralMesh.TetMesh.PlaceLayer | grid/geometry/tetrahedral_mesh.cpp:236-244 | one layer extends the built grid by nbCube.x·nbCube.y cubes |
| TetrahedralMesh.TetMesh.PlaceCubes | grid/geometry/tetrahedral_mesh.cpp:235-245 | the triple loop builds all nbCube.x·nbCube.y·nbCube.z cubes |
| TetrahedralMesh.TetMesh.AddCube | grid/geometry/tetrahedral_mesh.cpp:239-243 | one pass of the cube loop keeps the grid built so far in step: the vertices are the lattice written by the first q+1 cubes and the mesh their tetrahedra |
| TetrahedralMesh.TetMesh.BuildGrid | grid/geometry/tetrahedral_mesh.cpp:223-248 | fails iff the mesh is not empty, changing nothing; otherwise (nx+1)(ny+1)(nz+1) vertices on the lattice, 6·nx·ny·nz tetrahedra and linked neighbours |
| TetrahedralMesh.TetMesh.ComputeNeighborhood | grid/geometry/tetrahedral_mesh.cpp:341-359 | corners and faces unchanged; neighbours become the linked relation of the faces |
| GridReader.ThreadedTask.constructor | grid/include/discrete_grid_reader.hpp:42-45 | a new task has the given step count and no advancement |
| GridReader.ThreadedTask.End | grid/include/discrete_grid_reader.hpp:58-69 | afterwards the task is complete, whether it had steps or not (a stepless task gets one step) |
| GridReader.ThreadedTask.SetSteps | grid/include/discrete_grid_reader.hpp:89-95 | the step count becomes the given one |
| GridReader.ThreadedTask.SetAdvancement | grid/include/discrete_grid_reader.hpp:105-111 | the current step becomes the given one |
| GridReader.ThreadedTask.Advance | grid/include/discrete_grid_reader.hpp:113-119 | one more step; a complete task stays complete |
| GridReader.CompleteHasSteps | grid/include/discrete_grid_reader.hpp:49-78 | a complete task always has steps |
| GridReader.Lookup | grid/include/discrete_grid_reader.hpp:162-169 | nothing iff no entry has the index; otherwise data cached under that index |
| GridReader.LookupFindsFirst | grid/include/discrete_grid_reader.hpp:162-169 | the data found is that of the first entry with the index |
| GridReader.ReadCache.constructor | grid/include/discrete_grid_reader.hpp:146 | a new cache is empty |
| GridReader.ReadCache.HasData | grid/include/discrete_grid_reader.hpp:152-158 | true iff some entry has the index |
| GridReader.ReadCache.GetData | grid/include/discrete_grid_reader.hpp:162-169 | the lookup of the index (null when absent) |
| GridReader.ReadCache.LoadData | grid/include/discrete_grid_reader.hpp:172-186 | below 16 entries the data is appended; at 16 the slot after the last inserted one (mod 16) is overwritten; never more than 16 entries |
| GridReader.ReadCache.ClearCache | grid/include/discrete_grid_reader.hpp:190-195 | the cache is left empty |
| GridReader.LoadedIsFound | grid/include/discrete_grid_reader.hpp:172-186 | data appended under a new index is found by its index |
| GridReader.OverwrittenIsFound | grid/include/discrete_grid_reader.hpp:172-186 | data written over a slot is found when no earlier entry has that index |
| ReaderHelpers.LastIndexOf | image/src/reader.cpp:34-35 | strrchr: the last position holding the character, or -1 iff it does not occur |
| ReaderHelpers.FileBaseName | image/src/reader.cpp:29-50 | null iff the name has no '.'; otherwise the prefix before the last '.' (the slash guard never fires) |
| ReaderHelpers.FileBaseNameChecked | image/src/reader.cpp:35-42 | as FileBaseName, but also null when the last '.' comes before the last '/' (a dot of a directory) |
| ReaderHelpers.RelativePathHasNoBaseName | image/src/reader.cpp:40-42 | "../data" gives "." as written, and no base name once the guard works |
| ReaderHelpers.AppendExtension | image/src/reader.cpp:52-74 | null iff either input is null or the base is empty; the base unchanged for an empty extension, else base + "." + extension |
| ReaderHelpers.AppendedExtensionEnds | image/src/reader.cpp:63-74 | the appended name is the base, a '.', then the extension |
| ReaderHelpers.BaseNameOfAppended | image/src/reader.cpp:29-74 | the base name of base + "." + ext is base again (for a non-empty base and a non-empty extension without '.' or '/') |
| ReaderHelpers.Divider | image/src/reader.cpp:131-149 | the voxel multiplier of a downsampling level is 1, 2, 4 or 8 |
| ReaderHelpers.LevelsHalveTheGrid | image/src/reader.cpp:131-149 | each downsampling level doubles the previous multiplier, so its grid is the previous level's grid halved along every axis |
| ReaderHelpers.Resize | image/src/reader.cpp:1208 | std::vector::resize: n elements, the old ones kept and new ones zero |
| ReaderHelpers.GenericGridReader.constructor | image/src/reader.cpp:76-98 | a new reader: original level, multiplier 1, no grid, no data, texture limits (max, lowest) |
| ReaderHelpers.GenericGridReader.EnableDownsampling | image/src/reader.cpp:131-149 | the level is stored and the multiplier is its divider |
| ReaderHelpers.GenericGridReader.GetGridDimensions | image/src/reader.cpp:157-166 | when downsampling, each image dimension divided by 2, 4 or 8; otherwise the stored grid dimensions |
| ReaderHelpers.GenericGridReader.GetGridSizeBytes | image/src/reader.cpp:168-175 | x·y·z·sizeof divided (truncating) by 1, 8, 64 or 512 |
| ReaderHelpers.GenericGridReader.PreAllocateStorage | image/src/reader.cpp:1201-1209 | grid dimensions are the image dimensions divided by the level's divider, and the data holds their product |
| ReaderHelpers.GenericGridReader.UpdateTextureLimits | image/src/reader.cpp:535-539 | the limits only widen, bound every loaded value afterwards, and each is either unchanged or a loaded value |
| ReaderHelpers.DivDimsBounds | image/src/reader.cpp:1208 | each divided dimension is the floor of the quotient |
| DiscreteGridModel.PixelAsWritten | grid/src/discrete_grid.cpp:143-158 | getPixel as written reads past the data exactly when an in-grid index equals the data size (`<` instead of `<=`) |
| DiscreteGridModel.EmptyDataIsReadPastEnd | grid/src/discrete_grid.cpp:153-156 | a 1×1×1 grid with no data reads data[0] |
| DiscreteGridModel.PixelAt | grid/src/discrete_grid.cpp:143-158 | 0 outside the grid or past the data, otherwise the sample at x + X·y + X·Y·z |
| DiscreteGridModel.PixelAsWrittenAgrees | grid/src/discrete_grid.cpp:143-158 | wherever getPixel as written reads inside the data it agrees with PixelAt |
| DiscreteGridModel.PixelAfterWrite | grid/src/discrete_grid.cpp:143-175 | after writing one in-grid voxel, only that voxel reads differently |
| DiscreteGridModel.VoxelSizes | grid/src/discrete_grid.cpp:394-405 | unchanged if a dimension is 0; otherwise size × resolution is the bounding-box diagonal on each axis |
| DiscreteGridModel.DiscreteGrid.constructor | grid/src/discrete_grid.cpp:26-40 | a new grid: the given modifiability, online, no dimensions, no data, unit voxels |
| DiscreteGridModel.DiscreteGrid.GetPixel | grid/src/discrete_grid.cpp:143-158 | 0 outside the grid; the reader's pixel when offline and downsampled; otherwise PixelAt |
| DiscreteGridModel.DiscreteGrid.SetPixel | grid/src/discrete_grid.cpp:161-175 | a no-op when not modifiable or out of range; otherwise only the target index changes |
| DiscreteGridModel.DiscreteGrid.DataPtr | grid/src/discrete_grid.cpp:184-187 | null iff offline; otherwise the samples |
| DiscreteGridModel.DiscreteGrid.SetData | grid/src/discrete_grid.cpp:304-311 | the samples become a copy of the given ones |
| DiscreteGridModel.DiscreteGrid.SetModifiable | grid/src/discrete_grid.cpp:313-316 | stores the flag |
| DiscreteGridModel.DiscreteGrid.SetOffline | grid/src/discrete_grid.cpp:51-54 | stores the flag |
| DiscreteGridModel.DiscreteGrid.UpdateVoxelDimensions | grid/src/discrete_grid.cpp:394-405 | voxel sizes become VoxelSizes of the box and resolution |
| DiscreteGridModel.DiscreteGrid.SetResolution | grid/src/discrete_grid.cpp:318-323 | nothing changes on a non-modifiable grid; otherwise the resolution is stored and voxel sizes recomputed |
| DiscreteGridModel.DiscreteGrid.SetBoundingBox | grid/src/discrete_grid.cpp:209-216 | nothing changes on a non-modifiable grid; otherwise the box is stored and voxel sizes recomputed |
| DiscreteGridModel.HasDataMeansSamples | grid/src/discrete_grid.cpp:177-187 | a grid with data is online and has a non-empty sample buffer |
| ImageSlices.Repeat | src/core/images/image.hpp:153 | n copies of one value |
| ImageSlices.FlipTopBit | src/core/images/image.hpp:154-155 | flipping the sign bit of a w-bit sample gives an unsigned w-bit value |
| ImageSlices.FlipTopBitIsOffsetBinary | src/core/images/image.hpp:154-155 | for a signed w-bit value v the flipped pattern is v + 2^(w-1) (offset binary) |
| ImageSlices.FlipTopBitMonotone | src/core/images/image.hpp:154-155 | the flip keeps the order of signed samples |
| ImageSlices.CastSample | src/core/images/image.hpp:153-157 | the output is a value of the output width; an in-range sample is unchanged without inversion, and with inversion a signed sample that fits the input width becomes its offset-binary value v + 2^(w-1) |
| ImageSlices.StridedCountCloses | src/core/images/image.hpp:152 | the strided loop from lo by step stops at the first index at or past hi |
| ImageSlices.StridedCastLength | src/core/images/image.hpp:151-159 | the strided insert appends copies × (number of strided indices) values |
| ImageSlices.StridedCastElement | src/core/images/image.hpp:151-159 | copy j of the n-th strided index is the cast of values[lo + n·step] |
| ImageSlices.CastToUintAndInsert | src/core/images/image.hpp:151-159 | the loops append exactly the strided, duplicated, cast samples |
| ImageSlices.PushCopies | src/core/images/image.hpp:153-157 | the inner loop appends `duplicate` copies (none when negative) |
| ImageSlices.Conversion | src/core/images/image.hpp:163-195 | a conversion exists iff the type is an 8/16/32/64-bit integer or a 32/64-bit float; it inverts iff the type is signed |
| ImageSlices.CastToLowPrecision | src/core/images/image.hpp:163-195 | signed types are inserted with inversion, unsigned and float types without, other types append nothing |
| ImageSlices.DimInputBytes | src/core/images/image.hpp:318-354 | the .ima byte count is one byte per voxel: the type string the S16 and FLOAT tests look at is never read from the header |
| ImageSlices.DimReader.constructor | src/core/images/image.hpp:378-386 | the reader keeps the resolution and samples it was given |
| ImageSlices.DimReader.GetValue | src/core/images/image.hpp:392-398 | the sample at x + X·y + X·Y·z, an index inside the data |
| ImageSlices.DimReader.PushRowIndices | src/core/images/image.hpp:409-413 | one row of the slice loop appends its strided entries, nbChannel times each |
| ImageSlices.DimReader.GetSlice | src/core/images/image.hpp:405-415 | getSlice as written: the slice holds the voxel INDICES (mod 2^16), not the samples |
| ImageSlices.DimReader.PushRowValues | src/core/images/image.hpp:409-413 | one row of the corrected slice loop appends the samples |
| ImageSlices.DimReader.GetSliceValues | src/core/images/image.hpp:405-415 | the corrected slice holds the samples of the strided window, nbChannel times each |
| ImageSlices.SingleVoxelWindow | src/core/images/image.hpp:405-415 | a one-voxel window as written yields its index (mod 2^16), repeated per channel |
| ImageSlices.SingleVoxelWindowValues | src/core/images/image.hpp:405-415 | a one-voxel window, corrected, yields its sample repeated per channel |
| ImageSlices.SliceGivesIndicesNotSamples | src/core/images/image.hpp:411 | for a 1×1×1 image holding v, the slice as written is [0] and the corrected one [v] |
| ImageSlices.RowIndicesLength | src/core/images/image.hpp:409-413 | a row as written holds nbChannel entries per strided column |
| ImageSlices.RowIndicesElement | src/core/images/image.hpp:409-413 | entry n·nb + t of a row as written is the 16-bit index of the n-th strided voxel, which lies below the bound |
| ImageSlices.SliceIndicesLength | src/core/images/image.hpp:405-415 | for every window, the slice as written holds rows × columns × nbChannel entries (strided counts) |
| ImageSlices.SliceIndicesElement | src/core/images/image.hpp:405-415 | for every window, entry (r·cols + c)·nb + t of the slice as written is the index (mod 2^16) of voxel (loI + c·stepI, loJ + r·stepJ, slice), whatever the samples |
| ImageSlices.RowValuesLength | src/core/images/image.hpp:409-413 | a corrected row holds nbChannel entries per strided column |
| ImageSlices.RowValuesElement | src/core/images/image.hpp:409-413 | entry n·nb + t of a corrected row is the sample of the n-th strided voxel, read inside the data |
| ImageSlices.SliceValuesLength | src/core/images/image.hpp:405-415 | for every window inside the image, the corrected slice holds rows × columns × nbChannel entries |
| ImageSlices.SliceValuesElement | src/core/images/image.hpp:405-415 | for every window inside the image, entry (r·cols + c)·nb + t of the corrected slice is the sample of voxel (loI + c·stepI, loJ + r·stepJ, slice), read inside the data |
| ImageSlices.FirstIndexOf | src/core/images/image.hpp:441 | find_first_of: the first position of the character, or -1 iff absent |
| ImageSlices.SelectFormatAsWritten | src/core/images/image.hpp:438-473 | the constructor as written never selects DIM/IMA; OME-TIFF iff "ome" follows the first '.' |
| ImageSlices.SelectFormat | src/core/images/image.hpp:438-473 | the intended selection: DIM/IMA iff the extension is dim or ima; a TIFF kind iff it is tif or tiff |
| ImageSlices.DimNameOpenedAsTiff | src/core/images/image.hpp:440 | "a.dim" is opened as TIFF as written and as DIM/IMA by the intended selection |
| TiffReader.SlotSplits | image/tiff/include/tiff_reader_templated.impl.hpp:314-318 | sample c of pixel p lands at p·dim + c, and that position decodes back to (c, p) |
| TiffReader.Interleaved | image/tiff/include/tiff_reader_templated.impl.hpp:262-318 | the interleaved slice holds one value per sample of every pixel |
| TiffReader.InterleavedAt | image/tiff/include/tiff_reader_templated.impl.hpp:314-318 | the interleaved slice holds plane c's pixel p at p·dim + c |
| TiffReader.FilledDone | image/tiff/include/tiff_reader_templated.impl.hpp:262-318 | a buffer filled plane by plane, pixel by pixel, is the interleaved slice |
| TiffReader.SlicesReadable | image/tiff/include/tiff_reader_templated.impl.hpp:347-353 | the slices read stop at the requested depth or at the last image, whichever comes first |
| TiffReader.LinesReadableAsWritten | image/tiff/include/tiff_reader_templated.impl.hpp:355-361 | the line count as written subtracts origin.y twice, in 64-bit unsigned arithmetic |
| TiffReader.LinesReadable | image/tiff/include/tiff_reader_templated.impl.hpp:355-361 | the intended line count stops at the requested height or at the image's last line |
| TiffReader.LinesDroppedAsWritten | image/tiff/include/tiff_reader_templated.impl.hpp:355-361 | origin.y 1, height 2 of 10 lines: one line read as written instead of two |
| TiffReader.LinesWrapAsWritten | image/tiff/include/tiff_reader_templated.impl.hpp:355-361 | origin.y 3, height 2 of 10 lines: the count wraps to 2^64 - 1 as written |
| TiffReader.LinesAgreeFromTop | image/tiff/include/tiff_reader_templated.impl.hpp:355-361 | from the top line the written and intended counts agree |
| TiffReader.ValuesPerLine | image/tiff/include/tiff_reader_templated.impl.hpp:368-372 | each line copies the requested width or the rest of the source line, whichever is shorter |
| TiffReader.SourceInRange | image/tiff/include/tiff_reader_templated.impl.hpp:388-392 | every source position read lies inside the slice |
| TiffReader.TargetInRange | image/tiff/include/tiff_reader_templated.impl.hpp:375-394 | every target position written lies inside the output buffer |
| TiffReader.OutsideRegionIsZero | image/tiff/include/tiff_reader_templated.impl.hpp:333-342 | a region whose origin lies outside the stack reads as zeros |
| TiffReader.SlicesPastEndAreZero | image/tiff/include/tiff_reader_templated.impl.hpp:333-351 | positions of the region in slices past the end of the stack stay zero |
| TiffReader.LinesPastEndAreZero | image/tiff/include/tiff_reader_templated.impl.hpp:333-359 | positions of the region in lines past the last line of the images stay zero |
| TiffReader.ColumnsPastEndAreZero | image/tiff/include/tiff_reader_templated.impl.hpp:333-370 | values of a region line past the end of the source line stay zero |
| TiffReader.PixelIndex | image/tiff/include/tiff_reader_templated.impl.hpp:388 | the pixel (px, py) of a slice is at px + resX·py, inside the slice |
| TiffReader.SourceIsSlot | image/tiff/include/tiff_reader_templated.impl.hpp:388 | the value read for output column x is sample x mod dim of source pixel origin.x + x div dim |
| TiffReader.RegionReadsPixel | image/tiff/include/tiff_reader_templated.impl.hpp:375-394 | each readable output value is the right sample of the right pixel of the right slice |
| TiffReader.FramesOfShape | image/tiff/include/tiff_reader_templated.impl.hpp:536-609 | the parsed image list has one image per directory of every file, each with one frame per channel |
| TiffReader.CheckDirCounts | image/tiff/include/tiff_reader_templated.impl.hpp:538-552 | true iff every channel's file has as many directories as the first channel's |
| TiffReader.ReadRow | image/tiff/include/tiff_reader_templated.impl.hpp:565-591 | fails iff some channel's frame is incompatible; otherwise one frame per channel |
| TiffReader.ReadBlock | image/tiff/include/tiff_reader_templated.impl.hpp:557-609 | fails iff some frame of the file is incompatible; otherwise one image per directory |
| TiffReader.CheckFileCounts | image/tiff/include/tiff_reader_templated.impl.hpp:485-517 | true iff every stack has as many files as the first |
| TiffReader.CheckNoEmptyStack | image/tiff/include/tiff_reader_templated.impl.hpp:430-444 | true iff no stack of files is empty |
| TiffReader.TiffStackReader.constructor | image/tiff/include/tiff_reader_templated.impl.hpp:22-39 | a new reader has the given width, height and channel count and no images |
| TiffReader.TiffStackReader.CleanResources | image/tiff/include/tiff_reader_templated.impl.hpp:223-235 | no images, zero resolution, zero channels |
| TiffReader.TiffStackReader.FrameBuffer | image/tiff/include/tiff_reader_templated.impl.hpp:263-265 | a frame's data buffer holds resX·resY values: the decoded samples, zero past them |
| TiffReader.TiffStackReader.LoadSlice | image/tiff/include/tiff_reader_templated.impl.hpp:246-321 | fails past the end, and on a slice with fewer frames than dim, where the plane loop indexes past the frames; otherwise the slice with its first dim frames' planes interleaved |
| TiffReader.TiffStackReader.CopyLine | image/tiff/include/tiff_reader_templated.impl.hpp:386-395 | copying one line extends the copied part of the region by one line |
| TiffReader.TiffStackReader.CopySlice | image/tiff/include/tiff_reader_templated.impl.hpp:384-396 | copying the readable lines of one slice extends the copied part of the region by one slice |
| TiffReader.TiffStackReader.ReadSubRegion | image/tiff/include/tiff_reader_templated.impl.hpp:326-398 | the buffer holds size.x·size.y·size.z·dim values; the read fails exactly when a slice it loads has fewer frames than dim, and otherwise holds the stack's samples inside the region and zeros elsewhere (with the corrected line count) |
| TiffReader.TiffStackReader.GetSubRangeValues | image/tiff/include/tiff_reader_templated.impl.hpp:403-411 | fails iff the channel does not exist; otherwise that channel's value range |
| TiffReader.TiffStackReader.ParseInfo | image/tiff/include/tiff_reader_templated.impl.hpp:414-661 | succeeds iff every check passes (including the existence of directory 0 of the first file, the reference frame); no files change nothing; a failure cleans the reader; success appends the parsed images and sets the dimensionality to the samples per pixel of the first slice, summed over its channel frames |
| TiffReader.SingleSampleFramesCountChannels | image/tiff/include/tiff_reader_templated.impl.hpp:643-652 | with one sample per frame, the dimensionality is the number of channel stacks |
| TiffReader.RgbStackCountsThree | image/tiff/include/tiff_reader_templated.impl.hpp:643-652 | one channel stack of three-sample (RGB) frames gives a dimensionality of 3 |
| TiffReader.MultiSampleSliceIsShort | image/tiff/include/tiff_reader_templated.impl.hpp:643-652 | frames of at least one sample give a dimensionality of at least the frame count, and more than it as soon as one frame has several samples, so loadSlice fails on such a slice |
| TiffReader.FirstParsedSlice | image/tiff/include/tiff_reader_templated.impl.hpp:536-609 | after a successful parse of a fresh reader, slice 0 is directory 0 of every stack's first file, the frames whose samples are summed |
| TiffReader.ParsedSlicesHaveAllChannels | image/tiff/include/tiff_reader_templated.impl.hpp:536-609 | after a successful parse every image has one frame per channel |
| TiffWriter.BitWidth | image/tiff/include/tiff_writer_templated.impl.hpp:24-170 | every element type is 8, 16, 32 or 64 bits wide |
| TiffWriter.WriterTags | image/tiff/include/tiff_writer_templated.impl.hpp:24-170 | each writer constructor sets the bits per sample to the type's width, and the sample format to UINT, INT or IEEEFP (floats 32 or 64 bits) |
| TiffWriter.WriterTagsInjective | image/tiff/include/tiff_writer_templated.impl.hpp:24-170 | two element types with the same tags are the same type |
| TiffWriter.StridedReadsCount | image/tiff/include/tiff_writer_templated.impl.hpp:317-321 | the strided loop over q·samples + r values from beg runs q times, plus one when beg < r |
| TiffWriter.SubpixelWritesOverrunIff | image/tiff/include/tiff_writer_templated.impl.hpp:309-321 | the loop as written writes more values than the size/samples it allocates iff size mod samples > beg |
| TiffWriter.OddSliceOverruns | image/tiff/include/tiff_writer_templated.impl.hpp:309-321 | 3 values of 2 samples from 0: two writes into a 1-element output |
| TiffWriter.SubpixelsAt | image/tiff/include/tiff_writer_templated.impl.hpp:298-325 | corrected: empty for beg ≥ samples; otherwise size/samples values, the k-th being src[beg + k·samples] |
| TiffWriter.SubpixelsOfInterleaved | image/tiff/include/tiff_writer_templated.impl.hpp:298-325 | extracting channel c from an interleaved slice gives back plane c |
| TiffWriter.ReadSubpixels | image/tiff/include/tiff_writer_templated.impl.hpp:298-325 | the loop (bounded by the pixel count) returns the strided sub-pixels |
| TiffWriter.WriteTiffTags | image/tiff/include/tiff_writer_templated.impl.hpp:248-295 | 0 rows per strip without a file or for a start past the channels; otherwise the default strip size |
| TiffWriter.WriteSlice | image/tiff/include/tiff_writer_templated.impl.hpp:175-222 | succeeds iff there is a grid with non-zero resolution, the slice exists, there are channels and every channel's tag writes succeed (whether a file opens is a parameter; the strip writes themselves are not modelled); one file per channel holding that channel's samples |
| TiffWriter.WriteGrid | image/tiff/include/tiff_writer_templated.impl.hpp:225-245 | succeeds iff there is a grid with slices and every slice is written |
| TiffWriter.GridWrittenIff | image/tiff/include/tiff_writer_templated.impl.hpp:175-245 | every slice is written iff the resolution and channels are non-zero, the strip size is positive and every file opens |
| TiffWriter.WriteTiffStrips | image/tiff/include/tiff_writer_templated.impl.hpp:328-360 | fails without a file, data or buffer; otherwise the first height·width values are written and it succeeds iff every scanline is written |
| TiffBackend.LastDotStartsSuffix | image/tiff/src/tiff_backend.cpp:11-16 | in a name ending with an extension that holds no other '.', the last '.' found starts that extension |
| TiffBackend.CanReadImage | image/tiff/src/tiff_backend.cpp:11-36 | a name is only accepted when it ends with ".tif" or ".tiff" and its first frame parses |
| TiffBackend.CanReadImageIff | image/tiff/src/tiff_backend.cpp:11-36 | canReadImage accepts a name iff it ends with ".tif" or ".tiff" and its first frame parses |
| TiffBackend.NoDotIsRejected | image/tiff/src/tiff_backend.cpp:13-15 | a name without an extension is refused |
| TiffBackend.BackendType | image/tiff/src/tiff_backend.cpp:183-240 | a reader is created exactly for UINT or INT samples of 8, 16, 32 or 64 bits and IEEEFP samples of 32 or 64 bits (every other case throws), and its element width equals the bits per sample |
| TiffBackend.WrittenTypeIsReadBack | image/tiff/src/tiff_backend.cpp:183-240 | a file tagged by the writer of any element type is read back by a reader of that same type |
| TiffBackend.CountDirectoriesAt | image/tiff/src/tiff_backend.cpp:259-273 | the inner loop succeeds iff every channel's file agrees with the first channel's directory count, and then adds that count once per channel |
| TiffBackend.CheckFilenamesAreValid | image/tiff/src/tiff_backend.cpp:242-281 | the stacks are valid iff all channels have as many files as the first and, file by file, as many directories; the step count set is the number of channels times the total directory count |
| TiffBackend.DepthAsWrittenCountsChannels | image/tiff/src/tiff_backend.cpp:124-128 | the depth set from the step count is the number of channels times the number of slices the parse creates |
| TiffBackend.TwoChannelDepthDoubled | image/tiff/src/tiff_backend.cpp:124-128 | two channels of one three-directory file give three slices but a depth of six |
| TiffBackend.ImageDepth | image/tiff/src/tiff_backend.cpp:124-128 | the intended depth is the number of slices (frames) the parse creates |
| TiffBackend.TiffBackendImpl.constructor | image/tiff/src/tiff_backend.cpp:9 | a new backend has no reader and an unknown type |
| TiffBackend.TiffBackendImpl.GetInternalDataType | image/tiff/src/tiff_backend.cpp:62-65 | the type is Unknown iff there is no reader, else the reader's element type |
| TiffBackend.TiffBackendImpl.ReadSubRegion | image/tiff/src/tiff_backend.cpp:291-378 | every typed read fails without a reader and otherwise returns the reader's result |
| TiffBackend.TiffBackendImpl.CreateTiffBackend | image/tiff/src/tiff_backend.cpp:183-240 | a reader of the dispatched type is installed exactly when the dispatch has one; otherwise nothing changes (the exception) |
| TiffBackend.TiffBackendImpl.InternalCleanupAfterError | image/tiff/src/tiff_backend.cpp:283-288 | after cleanup there is no reader, the type is Unknown, the resolution is zero and the voxel sizes are -1, so nothing is present on disk |
| GenericReader.ReadPixelReadsChannels | image/generic/include/generic_image_reader.hpp:91-97 | readPixel's 1×1×1 region yields dim values, value c being channel c of the pixel at the index |
| GenericReader.ReadPixelOutsideIsZero | image/generic/include/generic_image_reader.hpp:91-97 | a pixel read at an index outside the image yields zeros |
| GenericReader.ReadLineReadsLine | image/generic/include/generic_image_reader.hpp:102-108 | readLine yields width·dim values, value x being channel x mod dim of pixel x div dim of the requested line and slice |
| GenericReader.ReadSliceReadsSlice | image/generic/include/generic_image_reader.hpp:113-118 | readSlice yields width·dim·height values, value x of line y being channel x mod dim of pixel (x div dim, y) of the slice |
| GenericReader.ReadSlicePastEndIsZero | image/generic/include/generic_image_reader.hpp:113-118 | a slice index past the stack's end reads zeros |
| GenericReader.GenericImageReader.constructor | image/generic/include/generic_image_reader.hpp:42-43 | a new reader's data type is Unknown |
| ObjReader.FirstKeptSpec | grid/utils/GLUtilityMethods.h:194 | the start of the kept text is the first character outside " \t\r\n" (the line's length when there is none) |
| ObjReader.KeptEndSpec | grid/utils/GLUtilityMethods.h:195 | the end of the kept text is one past the last character outside " \t\r\n" |
| ObjReader.Trim | grid/utils/GLUtilityMethods.h:194-200 | trimming never lengthens the line (its full meaning is stated by TrimSpec) |
| ObjReader.TrimSpec | grid/utils/GLUtilityMethods.h:194-200 | the trimmed line is empty iff the line holds only blanks, and otherwise starts and ends with a kept character |
| ObjReader.TrimKeeps | grid/utils/GLUtilityMethods.h:194-200 | a line that starts and ends with kept characters is left as it is |
| ObjReader.DecimalParses | grid/utils/GLUtilityMethods.h:274-283 | extracting an integer from the decimal text of n, optionally preceded by '-', and followed by a non-digit gives n (or -n) |
| ObjReader.ResolveInRange | grid/utils/GLUtilityMethods.h:296-305 | a reference 1..count or -count..-1 resolves to a vertex already read: k to k-1, and -k to count-k, so -1 is the last vertex |
| ObjReader.SlashAt | grid/utils/GLUtilityMethods.h:253 | the position found is the first '/', or the length when the word has none |
| ObjReader.HandleOfPositive | grid/utils/GLUtilityMethods.h:248-319 | a word "k" or "k/..." contributes the handle k-1 |
| ObjReader.HandleOfNegative | grid/utils/GLUtilityMethods.h:248-319 | a word "-k" contributes the handle count-k |
| ObjReader.HandleOfEmptyFirst | grid/utils/GLUtilityMethods.h:259-269 | a word whose first component is empty ("/2", "//3") contributes no handle |
| ObjReader.FanShape | grid/utils/GLUtilityMethods.h:325-342 | n handles make n-2 triangles (v0, v(i+1), v(i+2)), and fewer than three make none |
| ObjReader.QuadFan | grid/utils/GLUtilityMethods.h:325-333 | a quad a b c d splits into (a,b,c) and (a,c,d) |
| ObjReader.LineStepAppends | grid/utils/GLUtilityMethods.h:186-344 | one line keeps the vertices and triangles already read in front, appends at most one vertex, and does not append both a vertex and triangles |
| ObjReader.ParseAppends | grid/utils/GLUtilityMethods.h:186-344 | reading any number of lines only appends to the vectors passed in |
| ObjReader.CommentLineSkipped | grid/utils/GLUtilityMethods.h:197-205 | a blank line, or a '#' comment after any blanks, changes nothing |
| ObjReader.VertexLine | grid/utils/GLUtilityMethods.h:217-223 | a "v" line appends one vertex exactly when its three coordinates can be read |
| ObjReader.FaceLine | grid/utils/GLUtilityMethods.h:231-343 | an "f" line appends the fan of its handles, resolved against the number of vertices read so far |
| ObjReader.ReadHandle | grid/utils/GLUtilityMethods.h:248-319 | the component loop over one face word returns the word's handle: only component 0 is stored |
| ObjReader.ReadFace | grid/utils/GLUtilityMethods.h:236-323 | the word loop collects the handles of the face's words in order (component is reset per word) |
| ObjReader.Triangulate | grid/utils/GLUtilityMethods.h:325-342 | the on-the-fly triangulation (k = 0) produces exactly the fan of the handles |
| ObjReader.ReadLine | grid/utils/GLUtilityMethods.h:188-344 | one pass of the line loop does exactly what the line specification says: trim, skip blanks and comments, dispatch on "v" or "f", ignore other keywords |
| ObjReader.ReadNextLine | grid/utils/GLUtilityMethods.h:186-344 | reading line i after the first i lines gives the mesh of the first i+1 lines |
| ObjReader.FirstBad | grid/utils/GLUtilityMethods.h:189-192 | the index of the first line whose read leaves the stream bad, or the line count when there is none |
| ObjReader.Read | grid/utils/GLUtilityMethods.h:174-347 | the read succeeds iff no line read goes bad, and the mesh holds exactly the effect of the lines before the first bad one |
| ObjReader.ObjLoader | grid/utils/GLUtilityMethods.h:351-378 | an unopenable file fails with nothing read; otherwise the result and mesh are those of the read |
| MeshManipInterface.OverwriteUntouched | meshes/operations/arap/mesh_manip_interface.h:695-703 | a vertex no constraint names keeps its deformed position |
| MeshManipInterface.OverwriteLast | meshes/operations/arap/mesh_manip_interface.h:695-703 | a constrained vertex takes the position of the last constraint naming it |
| MeshManipInterface.ConstraintHandleOutOfRange | meshes/operations/arap/mesh_manip_interface.h:698-703 | `handles(false, n)` builds an empty vector whatever n, so for any non-empty constraint list the loop's first write is out of range, even when its index is a vertex in range for the intended n flags |
| MeshManipInterface.MMInterface.constructor | meshes/operations/arap/mesh_manip_interface.h:121-127 | a new interface holds no mesh and its vectors agree in length |
| MeshManipInterface.MMInterface.Clear | meshes/operations/arap/mesh_manip_interface.h:163-178 | clear empties the mesh, its deformed copy, the faces and both flag vectors |
| MeshManipInterface.MMInterface.AddTriangle | meshes/operations/arap/mesh_manip_interface.h:319-325 | addFace(v1,v2,v3) appends the triangle [v1,v2,v3] and changes nothing else |
| MeshManipInterface.MMInterface.AddQuad | meshes/operations/arap/mesh_manip_interface.h:327-338 | addFace(v1..v4) appends the triangles [v1,v2,v3] and [v1,v3,v4] and records the quad for display |
| MeshManipInterface.MMInterface.LoadAndInitialize | meshes/operations/arap/mesh_manip_interface.h:296-317 | after loading, the mesh and its deformed copy are the given points, no vertex is selected or fixed, and triangle t is the given triangle t |
| MeshManipInterface.MMInterface.GetHandlesVertices | meshes/operations/arap/mesh_manip_interface.h:95-102 | a vertex is a handle iff it is fixed or selected |
| MeshManipInterface.MMInterface.MakeSelectedFixedHandles | meshes/operations/arap/mesh_manip_interface.h:104-111 | afterwards nothing is selected and a vertex is fixed iff it was fixed or selected before |
| MeshManipInterface.MMInterface.IndexOfClosestPointInSphere | meshes/operations/arap/mesh_manip_interface.h:500-513 | -1 iff no deformed vertex lies within the radius; otherwise a vertex within the radius at the least distance, the first such one |
| MeshManipInterface.MMInterface.SelectNearest | meshes/operations/arap/mesh_manip_interface.h:515-522 | the nearest vertex within the sphere has its selection toggled and is unfixed; with none, nothing changes; disjointness of the flags is kept |
| MeshManipInterface.MMInterface.MakeFixedNearest | meshes/operations/arap/mesh_manip_interface.h:524-532 | the nearest vertex within the sphere has its fixed flag toggled and its selection set to the old fixed flag; disjointness is kept |
| MeshManipInterface.MMInterface.SelectInZone | meshes/operations/arap/mesh_manip_interface.h:469-498 | every vertex projecting into the zone becomes selected (moving) or fixed (not moving), and only those change |
| MeshManipInterface.MMInterface.UnselectInZone | meshes/operations/arap/mesh_manip_interface.h:536-565 | every vertex projecting into the zone is neither selected nor fixed afterwards, and only those change |
| MeshManipInterface.MMInterface.ClearSelection | meshes/operations/arap/mesh_manip_interface.h:567-572 | no vertex is selected or fixed afterwards |
| MeshManipInterface.MMInterface.SelectAll | meshes/operations/arap/mesh_manip_interface.h:574-580 | a vertex is selected iff it was selected or is not fixed; fixed flags are kept |
| MeshManipInterface.MMInterface.UnselectAll | meshes/operations/arap/mesh_manip_interface.h:582-586 | no vertex is selected afterwards; fixed flags are kept |
| MeshManipInterface.MMInterface.FixeAll | meshes/operations/arap/mesh_manip_interface.h:588-594 | a vertex is fixed iff it was fixed or is not selected; selections are kept |
| MeshManipInterface.MMInterface.UnfixeAll | meshes/operations/arap/mesh_manip_interface.h:596-600 | no vertex is fixed afterwards; selections are kept |
| MeshManipInterface.MMInterface.SetToPosition | meshes/operations/arap/mesh_manip_interface.h:657-671 | positions of the wrong count are ignored; otherwise the deformed copy becomes exactly the given positions |
| MeshManipInterface.MMInterface.ChangedConstraints | meshes/operations/arap/mesh_manip_interface.h:695-710 | each constraint moves its vertex (the last one for a vertex wins), and the handle vector, sized by the vertex count, marks exactly the constrained vertices |
| SimpleManipulatorModel.CanonicalFrameIsOffset | meshes/operations/arap/Manipulator.h:94-107 | with the canonical axes set by the constructor, a point's stored local coordinates are its offset from the origin |
| SimpleManipulatorModel.AppendKeepsSlots | meshes/operations/arap/Manipulator.h:96-101 | appending a new index at slot size+1 keeps every slot named by its index and adds the index to the added set |
| SimpleManipulatorModel.OverwriteKeepsSlots | meshes/operations/arap/Manipulator.h:102-106 | overwriting an added index's slot keeps the slot bookkeeping |
| SimpleManipulatorModel.SimpleManipulator.constructor | meshes/operations/arap/Manipulator.h:62-72 | a new manipulator has no points, the mouse released, grabbing mode 1, modification 0, canonical axes and unit scales |
| SimpleManipulatorModel.SimpleManipulator.SetEtat | meshes/operations/arap/Manipulator.h:75 | setEtat stores the state |
| SimpleManipulatorModel.SimpleManipulator.Activate | meshes/operations/arap/Manipulator.h:78 | activate sets state 1 |
| SimpleManipulatorModel.SimpleManipulator.Deactivate | meshes/operations/arap/Manipulator.h:79 | deactivate sets state 0 |
| SimpleManipulatorModel.SimpleManipulator.SetOrigine | meshes/operations/arap/Manipulator.h:81 | setOrigine stores the origin |
| SimpleManipulatorModel.SimpleManipulator.ResetScales | meshes/operations/arap/Manipulator.h:89-92 | all three scales become 1 |
| SimpleManipulatorModel.SimpleManipulator.AddPoint | meshes/operations/arap/Manipulator.h:94-107 | the index joins the added set; a new index gets a fresh last slot holding its local coordinates, an added one has its slot overwritten with them, and no other slot changes |
| SimpleManipulatorModel.SimpleManipulator.NPoints | meshes/operations/arap/Manipulator.h:109-112 | the number of slots equals the number of distinct indices added |
| SimpleManipulatorModel.SimpleManipulator.Clear | meshes/operations/arap/Manipulator.h:478-483 | no slot and no index remain, and the state is 0 |
| SimpleManipulatorModel.SimpleManipulator.WheelEvent | meshes/operations/arap/Manipulator.h:258-261 | the grabbing mode becomes (mode+1) % 2 with C++'s remainder: 0 and 1 swap |
| SimpleManipulatorModel.SimpleManipulator.FakeMouseDoubleClickEvent | meshes/operations/arap/Manipulator.h:490-510 | a modification of ±7, ±8 or ±9 resets the X, Y or Z scale to 1 and signals a move; any other modification changes nothing |
| SimpleManipulatorModel.ReAddOverwrites | meshes/operations/arap/Manipulator.h:94-107 | adding an index again keeps the point count and its slot holds the latest point's local coordinates |
| SimpleManipulatorModel.WheelTwiceRestores | meshes/operations/arap/Manipulator.h:258-261 | two wheel events give back the grabbing mode |
| SelectionTool.InScreenRectangle | src/core/interaction/mesh_manipulator.hpp:43-51 | a pixel is inside iff each coordinate lies strictly between the corners' min and max |
| SelectionTool.InScreenRectangleSymmetric | src/core/interaction/mesh_manipulator.hpp:43-51 | swapping the two corners does not change which pixels are inside |
| SelectionTool.FlatRectangleIsEmpty | src/core/interaction/mesh_manipulator.hpp:43-51 | a rectangle with no width or no height (a click without a drag) contains nothing |
| SelectionTool.CornersAreOutside | src/core/interaction/mesh_manipulator.hpp:43-51 | the corners themselves are never inside |
| SelectionTool.Selection.constructor | src/core/interaction/mesh_manipulator.hpp:74 | a new tool is active, not in selection mode, with both corners at (0, 0) |
| SelectionTool.Selection.IsInScreenSelection | src/core/interaction/mesh_manipulator.hpp:43-51 | the test on the tool's current corners |
| SelectionTool.Selection.IsInSelection | src/core/interaction/mesh_manipulator.hpp:53-64 | a position is selected iff it is visible and its projection is strictly inside the rectangle |
| SelectionTool.Selection.AreInSelection | src/core/interaction/mesh_manipulator.hpp:66-72 | one answer per position, in order, each that of isInSelection |
| SelectionTool.Selection.Activate | src/core/interaction/mesh_manipulator.hpp:76 | the tool becomes active |
| SelectionTool.Selection.Deactivate | src/core/interaction/mesh_manipulator.hpp:77 | the tool becomes inactive |
| SelectionTool.Selection.EnterSelectionMode | src/core/interaction/mesh_manipulator.hpp:90-94 | only an active tool enters selection mode; an inactive one is left as it is |
| SelectionTool.Selection.ExitSelectionMode | src/core/interaction/mesh_manipulator.hpp:96-101 | out of selection mode and nothing selected; the drawn rectangle is cleared, then the end of the selection is signalled |
| SelectionTool.Selection.MousePressEvent | src/core/interaction/mesh_manipulator.hpp:109-116 | a press starts a selection, and signals it, only in selection mode |
| SelectionTool.Selection.MouseReleaseEvent | src/core/interaction/mesh_manipulator.hpp:118-122 | a release ends the selection in any mode, clearing the rectangle and signalling the end |
| SelectionTool.Selection.MouseMoveEvent | src/core/interaction/mesh_manipulator.hpp:124-128 | a move signals that it is selecting iff a selection is in progress in selection mode |
| SelectionTool.Selection.CheckIfGrabsMouse | src/core/interaction/mesh_manipulator.hpp:130-142 | without a selection both corners follow the cursor; during one in selection mode the second corner does and the rectangle is redrawn; the tool grabs the mouse iff in selection mode |
| SelectionTool.DragSelects | src/core/interaction/mesh_manipulator.hpp:109-142 | a press at one pixel and a move to another selects exactly the pixels strictly inside the rectangle between them |
| MeshManipulators.RecordIfModified | grid/ui/mesh_manipulator.cpp:154-159 | the history gains one entry exactly when the mesh was modified |
| MeshManipulators.DirectManipulator.SelectManipulator | grid/ui/mesh_manipulator.cpp:135-140 | the grabbed manipulator's flag is raised and no other flag changes |
| MeshManipulators.DirectManipulator.DeselectManipulator | grid/ui/mesh_manipulator.cpp:142-146 | every flag is lowered, whichever manipulator was released |
| MeshManipulators.DirectManipulator.MoveManipulator | grid/ui/mesh_manipulator.cpp:128-133 | a move marks the mesh modified |
| MeshManipulators.DirectManipulator.MouseReleased | grid/ui/mesh_manipulator.cpp:154-159 | a modified mesh records one history entry and the flag resets |
| MeshManipulators.ReleaseRecordsOnce | grid/ui/mesh_manipulator.cpp:128-159 | a move followed by two releases records exactly one history entry |
| MeshManipulators.Handles | grid/ui/mesh_manipulator.cpp:422-428 | one handle flag per vertex |
| MeshManipulators.ModeEffectKeepsDisjoint | grid/ui/mesh_manipulator.cpp:341-353 | no selection mode leaves a vertex both moving and fixed, and a vertex caught by ADD_MOVING or ADD_FIXED becomes a handle |
| MeshManipulators.PressMode | grid/ui/mesh_manipulator.cpp:475-495 | with shift, left+ctrl gives REMOVE, left+alt ADD_FIXED, plain left ADD_MOVING, right INACTIVE, and any other button keeps the mode |
| MeshManipulators.FirstAtRange | grid/ui/mesh_manipulator.cpp:509-517 | the first manipulator at grabbing range, or -1 iff none is |
| MeshManipulators.ARAPManipulator.constructor | grid/ui/mesh_manipulator.cpp:273-304 | one unselected, unfixed, out-of-range flag per mesh vertex, the selection INACTIVE and the mesh unmodified |
| MeshManipulators.ARAPManipulator.UpdateSelection | grid/ui/mesh_manipulator.cpp:334-355 | each vertex inside the rectangle takes the flags of the current mode, the others keep theirs, and no vertex becomes both moving and fixed |
| MeshManipulators.ARAPManipulator.GetHandles | grid/ui/mesh_manipulator.cpp:422-428 | a vertex is a handle iff it is fixed or selected |
| MeshManipulators.ARAPManipulator.MakeSelecteFixedHandles | grid/ui/mesh_manipulator.cpp:533-540 | nothing stays selected, a vertex is fixed iff it was fixed or selected, and the handles are the same vertices |
| MeshManipulators.ARAPManipulator.MousePressed | grid/ui/mesh_manipulator.cpp:467-531 | with shift only the mode changes; with ctrl the middle button fixes the selection and left (right) fixes (selects) the first manipulator at range, if any; without ctrl or shift nothing changes |
| MeshManipulators.ARAPManipulator.MouseReleased | grid/ui/mesh_manipulator.cpp:542-559 | a modified mesh records one history entry; an active selection mode returns to ACTIVE and INACTIVE stays |
| MeshManipulators.MakeFixedKeepsHandles | grid/ui/mesh_manipulator.cpp:533-540 | turning the selection into fixed vertices does not change which vertices are handles |
| MeshManipulators.SliceManipulator.SelectSlice | grid/ui/mesh_manipulator.cpp:784-826 | a vertex is selected iff its distance to the plane of axis 0 or 1 is below the radius, and fixed iff one of them is at least the range; the orientation is not used |
| MeshManipulators.SliceManipulator.FlagVertex | grid/ui/mesh_manipulator.cpp:804-824 | the two-axis inner loop sets exactly vertex i's flags from its two distances |
| MeshManipulators.SliceManipulator.UpdateSliceToSelect | grid/ui/mesh_manipulator.cpp:828-831 | the orientation is remembered and the flags are recomputed |
| MeshManipulators.SliceManipulator.MovePlanes | grid/ui/mesh_manipulator.cpp:712-720 | the last modified slice becomes the highest axis whose plane moved (kept when none did), the planes take the new positions and the flags are recomputed |
| MeshManipulators.SliceManipulator.MouseReleased | grid/ui/mesh_manipulator.cpp:705-710 | a modified mesh records one history entry and the flag resets |
| MeshManipulators.RelinkKeepsLinked | grid/ui/mesh_manipulator.cpp:932-948 | removing one association with its own marker keeps the rest one-to-one with the markers, and the removed vertex has no association left |
| MeshManipulators.RelinkKeepsTargets | grid/ui/mesh_manipulator.cpp:932-948 | after that removal every other vertex is still moved to its own marker |
| MeshManipulators.AppendLink | grid/ui/mesh_manipulator.cpp:939-940 | a vertex without association gets one to a new marker appended at the end |
| MeshManipulators.PlacedIsLinked | grid/ui/mesh_manipulator.cpp:932-948 | placing a vertex's marker keeps associations and markers one-to-one; the vertex's moves become the single move to the placement and every other move is kept |
| MeshManipulators.FindVertex | grid/ui/mesh_manipulator.cpp:933-935 | the position of the vertex's earlier association, or -1 iff it has none |
| MeshManipulators.MarkerManipulator.constructor | grid/ui/mesh_manipulator.cpp:891-906 | a new tool is selecting a vertex, with no association and no marker |
| MeshManipulators.MarkerManipulator.SwitchToPlaceMarkerStep | grid/ui/mesh_manipulator.cpp:916-922 | the vertex is appended waiting for a marker (-1), the step is PLACE_MARKER and the mesh manipulators are disabled |
| MeshManipulators.MarkerManipulator.SelectManipulator | grid/ui/mesh_manipulator.cpp:908-914 | a right-click starts placing the vertex's marker only while selecting; otherwise nothing changes |
| MeshManipulators.MarkerManipulator.UndoSwitchToPlaceMarkerStep | grid/ui/mesh_manipulator.cpp:924-930 | the waiting association is dropped, the markers are kept and selection resumes |
| MeshManipulators.MarkerManipulator.SwitchToSelectManipulatorStep | grid/ui/mesh_manipulator.cpp:932-948 | (corrected) the moves applyDeformation makes are the old ones without the vertex's, plus the vertex to the placed marker; selection resumes |
| MeshManipulators.MarkerManipulator.PlaceManipulator | grid/ui/mesh_manipulator.cpp:973-984 | a ray that hits places the marker as above; a miss changes nothing |
| MeshManipulators.MarkerManipulator.KeyPressed | grid/ui/mesh_manipulator.cpp:959-971 | Q (not auto-repeated) asks for a ray iff placing; Escape while placing cancels; other keys change nothing |
| MeshManipulators.SelectThenUndoRestores | grid/ui/mesh_manipulator.cpp:908-971 | right-clicking a vertex then pressing Escape gives back the associations and markers |
| MeshManipulators.EraseDuplicatesAsWritten | grid/ui/mesh_manipulator.cpp:933-938 | the loop as written keeps the waiting association last |
| MeshManipulators.SwitchAsWritten | grid/ui/mesh_manipulator.cpp:932-948 | as written, one association per kept one and one marker more than the loop leaves |
| MeshManipulators.ReplacedMarkerPopsTheLast | grid/ui/mesh_manipulator.cpp:933-941 | re-placing vertex 5's marker pops marker 1 (vertex 7's) and leaves both 7 and 5 naming marker 1 |
| MeshManipulators.ReplacedMarkerMovesAnotherVertex | grid/ui/mesh_manipulator.cpp:933-941 | the result as written is no longer one-to-one and moves vertex 7 to the new placement |
| MeshManipulators.ReplacedMarkerKeepsOthers | grid/ui/mesh_manipulator.cpp:932-948 | with the duplicate's own marker removed, vertex 7 keeps its marker |
| ARAPControl.ButtonsFromThreshold | executables/arap_deformation/qt/src/arap_controller.cpp:165-212 | the buttons updateButtonsActivated enables rung by rung are exactly those whose threshold state the current state reaches |
| ARAPControl.EnabledMonotone | executables/arap_deformation/qt/include/arap_controller.hpp:41-48 | moving up the state ladder never disables a button |
| ARAPControl.LoadMeshAlwaysEnabled | executables/arap_deformation/qt/src/arap_controller.cpp:165-212 | loading a mesh is possible in every state |
| ARAPControl.Compound | executables/arap_deformation/qt/src/arap_controller.cpp:628-641 | the compounded list has one entry per mesh constraint and per image constraint |
| ARAPControl.CompoundLayout | executables/arap_deformation/qt/src/arap_controller.cpp:628-641 | it starts with the vertex position of each mesh constraint, in order, and ends with the image constraints |
| ARAPControl.CurrentlyEdited | executables/arap_deformation/qt/src/arap_controller.cpp:262 | the reported constraint is at most the mesh constraint count, and 0 iff the counter is 0 or past the mesh constraints |
| ARAPControl.NextEdited | executables/arap_deformation/qt/src/arap_controller.cpp:599-612 | one image constraint leaves a zero counter at zero and keeps a non-zero one non-zero; it advances by one while mesh constraints remain and never goes past size + 1 |
| ARAPControl.EditedFollowsImages | executables/arap_deformation/qt/src/arap_controller.cpp:593-616 | starting from the first mesh constraint, after k image constraints the constraint edited is k+1 while one exists, and none once every mesh constraint has its image counterpart |
| ARAPControl.ARAPController.constructor | executables/arap_deformation/qt/src/arap_controller.cpp:15-26 | a new controller has no mesh, no image, no constraint and the counter at 0 |
| ARAPControl.ARAPController.UpdateButtonsActivated | executables/arap_deformation/qt/src/arap_controller.cpp:165-212 | exactly the buttons allowed by the state are enabled, the deformation box is unchecked and the viewer deforms from MeshLoaded on |
| ARAPControl.ARAPController.SetDeformationButtonsState | executables/arap_deformation/qt/src/arap_controller.cpp:160-163 | the state becomes the new one and the enabled buttons are those it allows |
| ARAPControl.ARAPController.GetCurrentlyEditedConstraint | executables/arap_deformation/qt/src/arap_controller.cpp:262 | the counter, or 0 once it is past the mesh constraints |
| ARAPControl.ARAPController.GetMeshConstraintsAsPositions | executables/arap_deformation/qt/src/arap_controller.cpp:267-276 | nothing if either list is empty; otherwise the position of each constrained vertex, in order |
| ARAPControl.ARAPController.UpdateCompoundedConstraints | executables/arap_deformation/qt/src/arap_controller.cpp:628-641 | the resize-and-copy loops leave exactly the compounded list |
| ARAPControl.ARAPController.AddImageConstraint | executables/arap_deformation/qt/src/arap_controller.cpp:593-616 | without an image nothing changes; otherwise the position is appended and the counter moves to the next mesh constraint, never past count+1, staying 0 without mesh constraints; the compounded list is kept up to date |
| ARAPControl.ARAPController.AddMeshConstraint | executables/arap_deformation/qt/src/arap_controller.cpp:618-626 | the vertex is appended; the first mesh constraint sets the counter to 1 |
| ARAPControl.ARAPController.LoadConstraintData | executables/arap_deformation/qt/src/arap_controller.cpp:561-591 | a file that does not open changes nothing; otherwise the numbers read are appended and a non-empty list sets the counter to 1 |
| ARAPControl.ARAPController.DeleteMeshData | executables/arap_deformation/qt/src/arap_controller.cpp:643-653 | no constraint of any kind, the counter at 0 and no mesh |
| ARAPControl.ARAPController.LoadMeshFromFile | executables/arap_deformation/qt/src/arap_controller.cpp:345-420 | previous data is deleted, the new mesh is loaded, the constraints are those of a constraint file found beside it, and the state is MeshLoadedWithConstraints iff such a file was found, else MeshLoaded |
| ARAPControl.ARAPController.ComputeDeformation | executables/arap_deformation/qt/src/arap_controller.cpp:896-940 | the deformation runs iff there is a mesh, some mesh constraint and as many image constraints; then mesh constraint i is paired with image constraint i, the mesh takes the deformed positions and the state is Deformed; otherwise the constraints and the state do not change (the first-run transform of the mesh is not modelled, see below) |
| DrawableGridModel.MapSize | src/core/drawable/drawable_grid.cpp:614-617 | the maps' length is zero for a negative maximum and otherwise the floor of the maximum plus one |
| DrawableGridModel.MapSizeCounts | src/core/drawable/drawable_grid.cpp:614-617 | the maps have one entry for each integer 0, 1, ... not above the grid's maximum value |
| DrawableGridModel.CoveredIff | src/core/drawable/drawable_grid.cpp:625-633 | the range-by-range test agrees with "some shown range holds v" |
| DrawableGridModel.LastColorOverrides | src/core/drawable/drawable_grid.cpp:669-679 | a shown range holding v gives v its colour unless a later shown range also holds v |
| DrawableGridModel.UncoveredIsBlack | src/core/drawable/drawable_grid.cpp:663-679 | a value that no shown range holds stays black, whatever the hidden ranges hold |
| DrawableGridModel.MarkRange | src/core/drawable/drawable_grid.cpp:627-631 | the inner loop marks exactly the values of the range that are in the map and inside the visible window, keeping earlier marks |
| DrawableGridModel.PaintRange | src/core/drawable/drawable_grid.cpp:671-676 | the inner loop paints exactly the range's values that are in the maps, white and in the range's colour, and leaves the others as they were |
| DrawableGridModel.DrawableGrid.GetVisibilityMap | src/core/drawable/drawable_grid.cpp:611-634 | one entry per value 0 .. max; a value is visible iff some shown range holds it and it lies in the first channel's visible window |
| DrawableGridModel.DrawableGrid.UpdateMinMaxDisplayValues | src/core/drawable/drawable_grid.cpp:636-689 | one entry per value 0 .. max in both maps; a value is displayed iff some shown range holds it, and its colour is that of the last shown range holding it, black for none |
| DrawableGridModel.ContainFlag | src/core/drawable/drawable_grid.cpp:709-711 | contain (Contain, the bit test) reports a single flag iff that flag's bit is set, and a union contains what either part contains |
| DrawableGridModel.FlagMaskContainsExactly | qt/scene.hpp:103-108 | the four InfoToSend flags are distinct bits: a flag set built from any choice of them contains exactly the chosen flags |
| DrawableGridModel.FloorSqrt | src/core/drawable/drawable_grid.cpp:714 | the integer square root: r² ≤ n < (r+1)² |
| DrawableGridModel.GetTexSize | src/core/drawable/drawable_grid.cpp:713-724 | the width × height always holds n texels, the shape is square or one column wider, and the width is ⌊√n⌋ + 1 (the second growth step never fires) |
| Image3DViewerModel.SliceMax | qt/image3D_viewer.cpp:46 | the largest value of a slice: it bounds every value and is one of them (0 for an empty slice) |
| Image3DViewerModel.MaxOfBounds | qt/image3D_viewer.cpp:43-50 | the image maximum bounds every value of every slice |
| Image3DViewerModel.MaxOfAttained | qt/image3D_viewer.cpp:43-50 | the image maximum is one of the values, unless it is 0 |
| Image3DViewerModel.Raw3DImage.constructor | qt/image3D_viewer.cpp:4-16 | depth slices of width×height zeros, every picture stale, maximum 0 |
| Image3DViewerModel.Raw3DImage.UpdateMaxValue | qt/image3D_viewer.cpp:43-50 | the maximum becomes the largest value over all slices |
| Image3DViewerModel.Raw3DImage.SetSlice | qt/image3D_viewer.cpp:18-22 | only that slice's data is replaced and only its picture made stale; the maximum is recomputed |
| Image3DViewerModel.Raw3DImage.SetImage | qt/image3D_viewer.cpp:24-33 | all the data is replaced, the maximum recomputed and every picture made stale |
| Image3DViewerModel.Raw3DImage.GetImage | qt/image3D_viewer.cpp:35-41 | the picture returned shows the slice's current data; it is rendered again iff it was stale, and is up to date afterwards |
| Image3DViewerModel.GetImageTwiceRendersOnce | qt/image3D_viewer.cpp:35-41 | asking twice for the same picture renders it at most once |
| Image3DViewerModel.SetThenGetRendersNewData | qt/image3D_viewer.cpp:18-41 | after a slice's data changes, the next request renders it again, from the new data |
| Image3DViewerModel.GetImagesToDraw | qt/image3D_viewer.cpp:788-795 | the back image (0) is listed iff its box is checked, the front image (1) iff its box is, in increasing order |
| Image3DViewerModel.Image3DViewer.Reset | qt/image3D_viewer.cpp:279-282 | every flag of every image is cleared and the shape is kept |
| Image3DViewerModel.Image3DViewer.FillCurrentImages | qt/image3D_viewer.cpp:290-297 | each shown image whose current slice is stale is refilled once and flagged up to date; no other flag changes |
| CageLRI.DedupProperties | src/core/deformation/cage_surface_mesh.hpp:466-468 | the find-then-push_back idiom keeps no duplicate and loses no element |
| CageLRI.IndexOf | src/core/deformation/cage_surface_mesh.hpp:339-342 | std::find returns the first position holding the value |
| CageLRI.InvertMatrix | src/core/deformation/cage_surface_mesh.hpp:202-217 | inversion fails exactly when the determinant is 0, leaving invM as it was; otherwise every entry is the adjugate entry over the determinant |
| CageLRI.AdjugateTimesMatrix | src/core/deformation/cage_surface_mesh.hpp:204-214 | the adjugate entries the source writes are the true adjugate: the matrix times them is the determinant times the identity |
| CageLRI.NeighbourOfUnknownIsKept | src/core/deformation/cage_surface_mesh.hpp:313-330 | with a symmetric neighbourhood, every neighbour of an unknown tetrahedron goes to the solver too, as unknown or as a handle |
| CageLRI.TetPairs | src/core/deformation/cage_surface_mesh.hpp:462-465 | a tetrahedron contributes six vertex pairs (v, vn) with v < vn |
| CageLRI.OccSymmetric | src/core/deformation/cage_surface_mesh.hpp:471-486 | the edge map lists the same tetrahedra under a pair and under its swap |
| CageLRI.OccMembership | src/core/deformation/cage_surface_mesh.hpp:458-489 | a tetrahedron is listed under a pair iff it has that pair or its swap |
| CageLRI.AllMapKeys | src/core/deformation/cage_surface_mesh.hpp:458-489 | after all tetrahedra, each key's list is its old list followed by the tetrahedra having the pair, and a key is present iff it was or one does |
| CageLRI.AddPair | src/core/deformation/cage_surface_mesh.hpp:466-486 | one pair step pushes the pair only when new, and appends the tetrahedron under the pair and under its swap |
| CageLRI.AddTetEdges | src/core/deformation/cage_surface_mesh.hpp:460-488 | one tetrahedron's six pairs extend the deduplicated edge list and the edge map |
| CageLRI.ConstraintVertices | src/core/deformation/cage_surface_mesh.hpp:514-529 | the constraint vertices are distinct and are exactly the known vertices of unknown tetrahedra |
| CageLRI.NumberTetVertices | src/core/deformation/cage_surface_mesh.hpp:497-510 | a tetrahedron's vertices are numbered in first-seen order, each once, the numbering staying a bijection |
| CageLRI.NumberingRoundTrip | src/core/deformation/cage_surface_mesh.hpp:491-512 | the mesh-to-solver and solver-to-mesh mappings are inverse to each other |
| CageLRI.NumberNewVertex | src/core/deformation/cage_surface_mesh.hpp:504-508 | a newly seen vertex gets the next number and the earlier numbers do not change |
| CageLRI.MarkTetConstraints | src/core/deformation/cage_surface_mesh.hpp:520-527 | one unknown tetrahedron adds each known, unmarked vertex once, marks it, and records its solver number |
| CageLRI.CageGreenLRI.ClassifyTets | src/core/deformation/cage_surface_mesh.hpp:292-303 | a tetrahedron is a cage inlier iff none of its four vertices is an outlier |
| CageLRI.CageGreenLRI.FindOutlierNeighbour | src/core/deformation/cage_surface_mesh.hpp:316-325 | true iff some existing neighbour is not an inlier |
| CageLRI.CageGreenLRI.SelectTets | src/core/deformation/cage_surface_mesh.hpp:306-333 | the solver keeps, in mesh order, the outlier tetrahedra and the inliers bordering an outlier; the handles are the kept inliers, each kept tetrahedron records its mesh index |
| CageLRI.CageGreenLRI.RemapTet | src/core/deformation/cage_surface_mesh.hpp:336-345 | each neighbour found among the kept mesh indices becomes its solver position; -1 and the others stay |
| CageLRI.CageGreenLRI.RemapNeighbors | src/core/deformation/cage_surface_mesh.hpp:335-346 | every solver tetrahedron keeps its vertices and has its neighbours remapped |
| CageLRI.CageGreenLRI.CollectEdges | src/core/deformation/cage_surface_mesh.hpp:458-489 | the edge list is every pair once in first-seen order, and the edge map gains, under each pair and its swap, the tetrahedra having it |
| CageLRI.CageGreenLRI.CollectVertices | src/core/deformation/cage_surface_mesh.hpp:491-512 | solver vertices are the tetrahedra's vertices once each in first-seen order, and the two mappings are inverse, -1 marking the unused |
| CageLRI.CageGreenLRI.CollectConstraintsVertices | src/core/deformation/cage_surface_mesh.hpp:514-529 | the constraints are the solver numbers of the known vertices of unknown tetrahedra, each once, in first-seen order |
| SceneModel.FindName | src/qt/scene.cpp:1471-1478 | the first position holding the name, or -1 exactly when no entry has it |
| SceneModel.PlanePositionsWithActivation | src/qt/scene.cpp:557-565 | each axis whose activation is 0 gets the hidden coordinate -1000000; the others keep their position |
| SceneModel.ToggleTwiceRestores | src/qt/scene.cpp:967-983 | toggling the same plane direction twice restores it |
| SceneModel.ToggleNegatesNamedAxes | src/qt/scene.cpp:967-983 | a toggle negates the named axis, or all three for XYZ, and leaves the others |
| SceneModel.Scene.GetMeshIdx | src/qt/scene.cpp:1361-1369 | the first mesh with the name, or -1 exactly when none has it |
| SceneModel.Scene.GetGridIdx | src/qt/scene.cpp:1471-1478 | the first grid with the name, or -1 exactly when none has it |
| SceneModel.Scene.GetBaseMesh | src/qt/scene.cpp:1518-1537 | meshes are searched first, then graphs, then grids; nothing is found exactly when no list has the name |
| SceneModel.Scene.TogglePlaneDirection | src/qt/scene.cpp:967-983 | the plane direction becomes its toggle for that axis |
| SceneModel.Scene.ToggleDisplayPlane | src/qt/scene.cpp:986-1005 | the named activation, or all three for XYZ, becomes 1 when displayed and 0 otherwise; the others stay |
| SceneModel.Scene.SetColorFunctionR | src/qt/scene.cpp:889-909 | SingleChannel again flips the shown channel mod 2, from another function it resets it to 0; the first grid's two channels get the scale index after the ColorMagnitude/HSV2RGB substitution |
| SceneModel.Scene.SetColorFunctionG | src/qt/scene.cpp:911-929 | the same for the second grid, with only the HSV2RGB substitution |
| SceneModel.Scene.UpdateMinMaxDisplayValues | src/qt/scene.cpp:795-804 | the pending flag is cleared unless there is no grid |
| SceneModel.Scene.ResetRanges | src/qt/scene.cpp:2191-2199 | with an active grid its three range lists are emptied and the display updated; without one nothing changes |
| SceneModel.Scene.AddRange | src/qt/scene.cpp:2201-2210 | with an active grid the range, colour and visibility are appended to its three parallel lists; without one nothing changes |
| SceneModel.Scene.Clear | src/qt/scene.cpp:2120-2128 | every name and grid list is emptied and no grid is active |
| SceneModel.SingleChannelAlternates | src/qt/scene.cpp:889-896 | choosing SingleChannel repeatedly alternates between channels 0 and 1 |
| SceneModel.HidePlane | src/qt/scene.cpp:557-565 | hiding a plane sends it to the hidden coordinate and keeps the other planes |
| SceneModel.ResetThenAdd | src/qt/scene.cpp:2191-2210 | after a reset, one addRange leaves exactly that range on the active grid and the other grids untouched |
| SceneModel.ClearThenLookUp | src/qt/scene.cpp:2120-2128 | after clear no name is found and a range edit changes nothing |
| LegacyTetMesh.GetIndexBounded | grid/src/tetmesh.cpp:296-299 | getIndex (GetIndex) maps a corner inside a cube of side width to an index below width^3 |
| LegacyTetMesh.GetIndexInjective | grid/src/tetmesh.cpp:296-299 | getIndex (GetIndex) gives distinct corners distinct indices as long as i and j lie below the row width, which the width 2s of the code breaks at i = 2s |
| LegacyTetMesh.UnlinearInverts | grid/src/tetmesh.cpp:327-329 | the cube loop's linear counter decodes back to its (i, j, k) |
| LegacyTetMesh.Verts | grid/src/tetmesh.cpp:313-325 | the vertex list has one entry per loop step |
| LegacyTetMesh.VertsStep | grid/src/tetmesh.cpp:313-325 | each loop step appends the next lattice vertex |
| LegacyTetMesh.CornerOffset | grid/src/tetmesh.cpp:330-365 | every tetrahedron corner lies in the unit cube at (i, j, k) |
| LegacyTetMesh.SixTets | grid/src/tetmesh.cpp:330-365 | each cube contributes six tetrahedra of four vertices |
| LegacyTetMesh.SixTetsCorners | grid/src/tetmesh.cpp:330-365 | each corner is the index of the cube vertex given by its offset |
| LegacyTetMesh.Tets | grid/src/tetmesh.cpp:327-367 | six tetrahedra per cube |
| LegacyTetMesh.TetsStep | grid/src/tetmesh.cpp:327-367 | each cube step appends its six tetrahedra |
| LegacyTetMesh.TetsAt | grid/src/tetmesh.cpp:327-367 | tetrahedron 6q+t is tetrahedron t of cube q |
| LegacyTetMesh.CornerAddressed | grid/src/tetmesh.cpp:294-325 | with a row width of 2s+1, every lattice corner's index addresses the vertex at that corner |
| LegacyTetMesh.CubeInLattice | grid/src/tetmesh.cpp:327-329 | every cube lies inside the 2s-wide lattice |
| LegacyTetMesh.TetCornerIsCubeCorner | grid/src/tetmesh.cpp:289-366 | with the corrected width every tetrahedron corner is the vertex at its cube's corner |
| LegacyTetMesh.TetCornerIndex | grid/src/tetmesh.cpp:327-367 | the corner of tetrahedron 6q+t is getIndex of cube q plus the corner's offset |
| LegacyTetMesh.AsWrittenIndexCollides | grid/src/tetmesh.cpp:294-299 | with width 2s and s = 1, the corners (2,0,0) and (0,1,0) get the same index |
| LegacyTetMesh.AsWrittenFirstTetUsesVertexTwo | grid/src/tetmesh.cpp:327-336 | as written, the first tetrahedron's third corner is vertex 2 |
| LegacyTetMesh.AsWrittenVertexTwoIsFarCorner | grid/src/tetmesh.cpp:313-325 | vertex 2 lies at (1,-1,-1), not at the cube corner (0,1,0) |
| LegacyTetMesh.IntendedCornerIsVertexThree | grid/src/tetmesh.cpp:294-299 | with width 2s+1 the corner (0,1,0) has index 3 |
| LegacyTetMesh.VertexThreeIsIntendedCorner | grid/src/tetmesh.cpp:313-325 | vertex 3 lies at (-1,0,-1), the lattice point of corner (0,1,0) |
| LegacyTetMesh.InterpolatedValue | grid/src/tetmesh.cpp:105-121 | nearest-neighbour and trilinear give their own values; tricubic and barycentric give 0 |
| LegacyTetMesh.TetMesh.MakeVertices | grid/src/tetmesh.cpp:313-325 | the vertices are the (2s+1)^3 lattice points, x fastest |
| LegacyTetMesh.TetMesh.MakeCubes | grid/src/tetmesh.cpp:327-366 | the tetrahedra are the six per cube of the cube loop |
| LegacyTetMesh.TetMesh.MakeTetrahedraAsWritten | grid/src/tetmesh.cpp:289-366 | as written: the lattice vertices and the cube tetrahedra indexed with width 2s |
| LegacyTetMesh.TetMesh.MakeTetrahedra | grid/src/tetmesh.cpp:289-366 | corrected: (2s+1)^3 vertices and 6(2s)^3 tetrahedra indexed with width 2s+1 |
| LegacyTetMesh.TetMesh.PopulateOutputGridGuards | grid/src/tetmesh.cpp:37-51 | a grid is generated exactly when there is an output grid, at least one input grid and no zero dimension |

## Left out

- Drawing, OpenGL textures, shaders and Qt widgets: foreign calls with no logic to prove. The scene's draw functions, the viewers' widgets and the manipulators' drawing are not modelled.
- File I/O: libtiff, the DIM/IMA and OBJ file streams, and the mesh-constraint file are parameters: decoded samples, directory counts, line contents, whether a file opens and the values a read yields. Parsing TIFF tags and messages is not modelled.
- Floating-point geometry: ray casts, point-in-tetrahedron tests, camera projection, distances, the manipulators' frame algebra, normals, texture coordinates and float vertex scaling. They enter as parameters or integer lattice coordinates, or are left out.
- The ARAP solve, the cage LRI solver assembly (volumes, basis transforms, the outlier geometry, initial vertex positions), applyDeformation and computeManipulatorForSelection/computeManipulatorFromSelection: numerical code over libraries that are not part of this model.
- Concurrency: ThreadedTask's timed mutex is taken to always succeed; detached threads, the TIFF parse's task object and OpenMP loops are sequential here.
- Integer widths: C++ sizes are unbounded integers except where the source's width matters (the offset-binary cast, the 64-bit wrap of finding 2, the 16-bit index of finding 9). A 32/64-bit overflow elsewhere is not modelled; neither is the OBJ reader's integer overflow or its float parsing (the `vertexOf` parameter).
- Shared and raw pointers are values or indices; a null pointer is `None`.
- Signals (Q_EMIT) and their payloads, file dialogs, labels and status messages are not modelled.
- open_OFF, compute_max_sphere_radius, the rotation guizmo, FLT_MAX radii and the MMInterface's changed(manipulator), manipulatorReleased, setIterationNb/getIterationNb and draw functions are not modelled: they are ARAP-solver or frame-algebra plumbing.
- GenericReader's readSubRegion is a pass-through to the backend and has no member of its own.
- TiffBackend's parseImageInfo thread and createBackend's file handling are not modelled; the type dispatch is.
- ImageSlices.DimInputBytes: the header's -type value is never read (the read at src/core/images/image.hpp:324 is commented out), so the S16 and FLOAT branches of the byte count and of the sample conversion never run; the model keeps only the one-byte-per-voxel path that does run.
- The TIFF writer's file naming and tag values beyond the sample format are not modelled.
- The grid's value_ranges merge and the slice cache of the grid reader beyond ReadCache are not modelled.
- TiffReader.TiffStackReader.LoadSlice: the cache-hit path (tiff_reader_templated.impl.hpp:251-254, which returns the slot of an already cached slice) is not modelled; every load reads the frames again, which gives the same data since the frames do not change. On a slice with fewer frames than dim (any stack of multi-sample frames, which the parse accepts), the source indexes images[slice][i] past the frames (impl.hpp:270-275, where the author's own warning says only single-sample frames work); that read is undefined, and the model fails there instead (None).
- TiffReader.TiffStackReader.ReadSubRegion: the source always returns true; its `ok` result is false here exactly where loadSlice would read past a slice's frames (impl.hpp:382), and the values are then not specified.
- Image colour conversion is not modelled: a rendered slice is the data it was rendered from. fillAllImagesSlices and the viewer's init are left out.
- Image3DViewerModel.SliceMax: an empty slice gives 0, where the source's max_element on an empty slice would dereference its end.
- DrawableGridModel.GetTexSize uses an exact integer square root where the source rounds a float one; the visibility map is computed over exact reals.
- CageLRI.InvertMatrix: only m·adj(m) = det(m)·I and inv = adj/det are proved, not m·inv = I; float rounding is not modelled.
- DiscreteGridModel.DiscreteGrid.SetPixel: requires an in-grid index to lie inside the data; the source writes there without a check.
- ARAPControl.ARAPController.AddMeshConstraint: requires a loaded mesh and an in-range vertex index; the source does not check, and updateCompoundedConstraints would then read past the vertices.
- ARAPControl.ARAPController.ComputeDeformation: the mesh interface and the drawable's transform are not modelled. When there is a mesh and some mesh constraint but no mesh interface yet, the source calls applyTransformation_Mesh and initializeMeshInterface (arap_controller.cpp:909-912) before the size check can return, so the vertices can change on a run that does not deform; the model keeps them, and the compounded constraints it computed before that step.
- MeshManipInterface.MMInterface.IndexOfClosestPointInSphere: the source hands the index back through a float (`static_cast<float>(v)`, meshes/operations/arap/mesh_manip_interface.h:507), so an index above 2^24 would come back rounded to a nearby float; the model returns the exact index and promises nothing about that rounding.
- ARAPControl.ARAPController.LoadConstraintData: requires the loaded vertex indices to be in range, for the same reason. The `values` parameter is what the read loop pushes: the stream's end-of-file handling is not modelled, so the extra 0 the loop pushes when a final read fails (a file ending in whitespace) is part of `values` and is not derived.
- Image3DViewerModel.Raw3DImage.SetImage: requires the new data to have one slice per existing depth, which the source does not check: it keeps the depth and rebuilds one picture per slice of that depth whatever the new data holds.
- TiffReader.TiffStackReader.ParseInfo: the per-channel value ranges (their resize and the min/max read from each frame's metadata) and the incremental samples-per-pixel count kept while the frames are read are not modelled; only the final dimensionality is.
- SimpleManipulatorModel.WheelTwiceRestores: requires mode 0 or 1, the only values the source ever stores.
- MeshManipulators.SliceManipulator.SelectSlice: the orientation argument the source ignores is not a parameter, and only the two axes the source tests are modelled.
- In the marker manipulator, enabling and disabling the other mesh manipulators is modelled as one flag.
- In the scene, getSceneBBox and computePlanePositions are float geometry; grids are held as their range lists; updateTools(NONE) in clear and the per-grid recomputation of display values are not modelled.
- In the legacy TetMesh, the populateOutputGrid averaging loop, updateVoxelSizes and the interpolation kernels are not modelled; an interpolated value is a real parameter.

## Findings

| source | as written | input that shows it | evidently intended | confidence | as-written member | corrected member |
|---|---|---|---|---|---|---|
| grid/src/discrete_grid.cpp:154 | the sanity check `data.size() < index` lets index == size through | a 1×1×1 grid with empty data reads data[0] | `data.size() <= index` | not executed | DiscreteGridModel.EmptyDataIsReadPastEnd | DiscreteGridModel.PixelAt |
| image/tiff/include/tiff_reader_templated.impl.hpp:355-361 | the readable line count subtracts origin.y twice, in unsigned arithmetic | origin.y 1, height 2 of 10 lines reads one line; origin.y 3 wraps to 2^64 - 1 | subtract origin.y once | not executed | TiffReader.LinesDroppedAsWritten | TiffReader.LinesReadable |
| image/tiff/include/tiff_writer_templated.impl.hpp:309-321 | the strided loop writes past the size/samples output when size mod samples > beg | 3 values, 2 samples, beg 0: two writes into a 1-element output | loop over the pixel count | not executed | TiffWriter.OddSliceOverruns | TiffWriter.ReadSubpixels |
| src/core/images/image.hpp:440 | the TIFF test starts with `filename.size() > 0 \|\|`, which holds for every name, so the DIM/IMA branch is never taken | "a.dim" is opened as TIFF | TIFF only for the tif and tiff extensions, DIM/IMA for dim and ima | not executed | ImageSlices.DimNameOpenedAsTiff | ImageSlices.SelectFormat |
| image/tiff/src/tiff_backend.cpp:124-128 | the depth is the parse's step count, which counts every slice once per channel | two channels of one three-directory file: depth 6 for 3 slices | depth = number of slices | not executed | TiffBackend.TwoChannelDepthDoubled | TiffBackend.ImageDepth |
| grid/src/tetmesh.cpp:294-299 | getIndex uses a row width of 2s for a lattice 2s+1 points wide | s = 1: corners (2,0,0) and (0,1,0) both get index 2 | width 2s+1 | not executed | LegacyTetMesh.AsWrittenIndexCollides | LegacyTetMesh.TetCornerIsCubeCorner |
| grid/ui/mesh_manipulator.cpp:933-938 | re-placing an associated vertex erases the duplicate's association but pops the last marker | vertex 5 at marker 0 and vertex 7 at marker 1; placing 5 again leaves both naming marker 1, so 7 moves to the new placement | remove the duplicate's own marker | not executed | MeshManipulators.ReplacedMarkerPopsTheLast | MeshManipulators.PlacedIsLinked |
| image/src/reader.cpp:35-42 | the guard against a '.' before the last '/' never fires | "../data" gives the base name "." | no base name when the last '.' is in a directory | not executed | ReaderHelpers.RelativePathHasNoBaseName | ReaderHelpers.FileBaseNameChecked |
| src/core/images/image.hpp:411 | getSlice pushes the voxel index (cast to 16 bits), not the sample at it | a 1×1×1 image holding v gives [0] | push the sample | not executed (the DIM reader is marked unmaintained at src/core/images/image.hpp:419) | ImageSlices.SliceGivesIndicesNotSamples | ImageSlices.DimReader.GetSliceValues |
| meshes/operations/arap/mesh_manip_interface.h:698 | `handles(false, n)` constructs an empty vector, so every handles[index] written is out of range | any n with one constraint | a vector of n flags | not executed | MeshManipInterface.ConstraintHandleOutOfRange | MeshManipInterface.MMInterface.ChangedConstraints |
