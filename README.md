# NeuroM morphology core, modelled in Dafny

NeuroM reads neuron morphologies (SWC, HDF5 and Neurolucida ASCII files) into trees of
sections, iterates over them, and computes features and consistency checks on them. This
project models the part of NeuroM that is tree, list and dictionary manipulation. Floating-point
geometry is abstracted behind parameters such as the distance between two points. The model
covers:

- **Trees and iterators.** The generic `Tree` (`trees.dfy`) and its preorder, postorder,
  upstream, leaf, forking, segment, triplet and section iterators. The point-tree iterators
  (`point_trees.dfy`). The morphio-style `Section` iterators, which use an explicit stack, and
  the homogeneous-subtree split (`morphology.dfy`). Neurite types and the type filters
  (`types.dfy`).
- **Building sections from a point table.**
  - The fast reader's section builder: `DataWrapper`, `_section_end_points`,
    `_extract_sections` and `_merge_sections` (`datawrapper.dfy`, with worked blocks in
    `datawrapper_examples.dfy`).
  - The `BlockNeuronBuilder` (`block_builder.dfy`) and `make_neurites` (`fst_core.dfy`).
  - The raw-data adjacency wrapper (`readers.dfy`) and the HDF5 duplicate-point removal and
    group slicing (`hdf5.dfy`).
  - The Neurolucida tokenizer, s-expression parser and section reader
    (`neurolucida_tokens.dfy`, `neurolucida_parser.dfy`, `neurolucida.dfy`).
- **Soma.** The soma classifier and the three soma kinds (`neuron.dfy`).
- **Features and checks.**
  - Section, bifurcation and neurite features (`section_features.dfy`, `bifurcation.dfy`,
    `neurite_features.dfy`).
  - The feature registry (`core_features.dfy`) and the `morph_stats` helpers
    (`morph_stats.dfy`).
  - The morphology checks (`morphology_checks.dfy`), the raw-data checks (`io_check.dfy`) and
    the point-tree functions (`point_treefunc.dfy`).

Shared pieces:

- `wrappers.dfy` holds `Option` and `Result`. An `Err` names the Python exception class that
  the source raises.
- `seqs.dfy` holds sequence helpers.
- `dataformat.dfy` holds the point-table columns and the `POINT_TYPE` codes. The codes are
  UNDEFINED 0, SOMA 1, AXON 2, BASAL_DENDRITE 3 and APICAL_DENDRITE 4.
  `neurom/core/dataformat.py` is not part of this model.

Conventions:

- A node of a tree is named by its path of child indices from the root.
- A Python dictionary that keeps insertion order is an association list, or a map plus an
  order sequence.
- Where the source changes objects in place, the model uses a class. Examples are the tree
  arena `TreeStore`, `BlockNeuronBuilder`, `RawDataWrapper`, the feature `Registry` and the
  morph_stats `Config`. Each method is proved against a function on the old state.
- Where the source loops, the model has a method with loop invariants. Each such method is
  proved equal to a recursive specification function, and the properties are proved about
  that function.

The documentation and the code disagree, or the code cannot run as written, in a few places.
The model follows each file's code except where stated below:

- SomaC's center is the first point, as `neurom/core/neuron.py:106` computes it. The class
  docstring at `neurom/core/neuron.py:95-103` says it is the mean of the points.
- `neurom/core/tree.py`, `neurom/fst/_core.py`, `neurom/io/datawrapper.py` and
  `neurom/core/features.py` are from an older generation of the code than
  `neurom/core/morphology.py`, `neurom/core/types.py` and `neurom/features/*`.
- `_map_sections` (`neurom/features/neurite.py:74`) reads `check_type.type`. The
  `tree_type_checker` of `neurom/core/types.py:72-115` returns a plain function, which has no
  `type` attribute, so as written every `section_type` other than `NeuriteType.all` raises
  AttributeError. The model assumes the checker carries `type == (section_type,)`, as the
  filter's own decorator intends, and filters the sections by it.
- `_homogeneous_subtrees` (`neurom/core/morphology.py:225,229`) reads `.morphio_section`, which
  `Section` (`neurom/core/morphology.py:44-53`) does not have. As written, `iter_neurites` with
  `use_subtrees=True` raises AttributeError at the first heterogeneous neurite: this is
  Morphology.IterNeuritesAsWritten, listed under Findings. Morphology.HomogeneousSubtrees
  and the other split members model the evident intent, which reads the underlying morphio
  section through `to_morphio()`.
- `is_composite_type`, which `neurom/features/neurite.py` imports, is not defined in
  `neurom/core/types.py` here. It is therefore a parameter.

## Model

| member | source | states |
|---|---|---|
| Trees.SubChild | neurom/core/tree.py:43-50 | the i-th child of a node is reached by appending i to the node's path, and that path is valid |
| Trees.WalkMembers | neurom/core/tree.py:68-79 | a preorder or postorder walk visits exactly the nodes of the subtree |
| Trees.WalkMembersAt | neurom/core/tree.py:68-79 | the same, for a walk started at any node of a bigger tree |
| Trees.WalkAncestorOrder | neurom/core/tree.py:68-79 | iter_preorder yields a node before every descendant; iter_postorder yields it after all of them, so the root comes last |
| Trees.WalkSiblingOrder | neurom/core/tree.py:68-79 | children are visited in list order: everything under an earlier child comes before everything under a later one, in both walks |
| Trees.WalkDistinct | neurom/core/tree.py:68-79 | a walk yields each node once |
| Trees.UpstreamShape | neurom/core/tree.py:82-87 | the k-th node upstream is the ancestor k levels up, ending at the root |
| Trees.IterUpstream | neurom/core/tree.py:82-87 | the parent-following loop yields the node first, each next node the parent of the previous one, and stops after the root |
| Trees.PreorderWhereMembers | neurom/core/tree.py:90-98 | a predicate-filtered preorder walk holds exactly the subtree nodes that satisfy the predicate |
| Trees.LeafAndForkMembers | neurom/core/tree.py:53-98 | iter_leaf yields exactly the childless nodes, iter_forking_point exactly the nodes with more than one child |
| Trees.SegmentCount | neurom/core/tree.py:101-118 | segment_iter keeps every node that has a parent, in walk order: one segment fewer than nodes for a whole tree, one per node for a subtree below the root |
| Trees.TripletMembers | neurom/core/tree.py:121-129 | iter_triplet yields exactly the (parent, node, child) triples of inner non-root nodes |
| Trees.TripletSound | neurom/core/tree.py:121-129 | every yielded triple is such a triple |
| Trees.TripletComplete | neurom/core/tree.py:121-129 | every such triple is yielded |
| Trees.SectionShape | neurom/core/tree.py:142-151 | a section of a non-root node starts at its nearest proper ancestor that is a fork or the root, runs down through nodes that are neither, and ends at the node |
| Trees.GetSection | neurom/core/tree.py:142-151 | get_section's loop, which walks upstream and stops after the first fork or root and then reverses, returns that section |
| Trees.IterSectionSeeds | neurom/core/tree.py:153-158 | iter_section yields one section per non-root leaf or fork, each ending at its seed |
| Trees.TreeStore.constructor | neurom/core/tree.py:33-41 | an empty node store |
| Trees.TreeStore.NewTree | neurom/core/tree.py:38-41 | a new node has no parent and no children |
| Trees.TreeStore.AddChild | neurom/core/tree.py:43-50 | add_child appends the child after the existing children, sets its parent and returns it, changing nothing else |
| Trees.TreeStore.SetValue | neurom/core/tree.py:37-40 | assigning the value attribute of one node replaces that value and leaves every other value, parent link and child list as it was |
| Trees.Walk | neurom/core/tree.py:68-79 | a walk yields at least the start node; iter_preorder yields it first and iter_postorder last |
| Trees.Upstream | neurom/core/tree.py:82-87 | iter_upstream yields one node per level from the start node up to the root, both included |
| Trees.IterLeaf | neurom/core/tree.py:90-92 | iter_leaf yields only nodes of the subtree that have no children; Trees.LeafAndForkMembers gives the converse |
| Trees.IterForkingPoint | neurom/core/tree.py:95-98 | iter_forking_point yields only nodes of the subtree that have more than one child; Trees.LeafAndForkMembers gives the converse |
| PointTrees.ISegmentPairs | neurom/point_neurite/point_tree.py:47-57 | isegment pairs each node of the iteration that has a parent with that parent; a preorder or postorder walk gives one segment fewer than nodes from the root, and one per node from any other node |
| PointTrees.ISectionShape | neurom/point_neurite/point_tree.py:59-83 | each section isection yields ends at a non-root leaf or fork of the iteration, starts at a fork or the root and runs parent to child, whatever the iteration mode |
| PointTrees.ISectionPreorder | neurom/point_neurite/point_tree.py:59-83 | with the default preorder mode, isection yields the same sections as iter_section |
| PointTrees.NextEndPoint | neurom/point_neurite/point_tree.py:103-116 | next_end_point's scan stops at the first preorder node that is a non-root leaf or fork, and always finds one |
| PointTrees.FirstEndPointIndex | neurom/point_neurite/point_tree.py:103-116 | that first end point is found by following single children down from the node |
| PointTrees.IBranchEndPoints | neurom/point_neurite/point_tree.py:95-118 | i_branch_end_points gives one end point per child, in child order, each the first section end point below that child |
| PointTrees.AsElementsShape | neurom/point_neurite/point_tree.py:121-128 | as_elements keeps every container and its kind, leaves scalars alone and leaves no tree node behind |
| PointTrees.ITriplet | neurom/point_neurite/point_tree.py:85-93 | from a node of the tree, itriplet yields exactly the (parent, node, child) triples whose node is a non-root, non-leaf node of the subtree |
| Types.FromCode | neurom/core/types.py:48-61 | NeuriteType(value): the member with that value, or ValueError exactly when no member has it |
| Types.CodeRoundTrip | neurom/core/types.py:48-61 | looking up a member's own value gives that member back |
| Types.CodeInjective | neurom/core/types.py:48-61 | no two members share a value |
| Types.TreeTypeChecker | neurom/core/types.py:95-101 | ValueError exactly when some reference value is not a NeuriteType; otherwise one checked type per reference value |
| Types.CheckerTupleUnpacked | neurom/core/types.py:95-98 | a single tuple argument is unpacked into the reference list |
| Types.CheckerRejectsUnknown | neurom/core/types.py:99-101 | one invalid value among the arguments makes the checker raise ValueError |
| Types.CheckerAllAcceptsAnything | neurom/core/types.py:102-105 | a reference list holding NeuriteType.all accepts every type |
| Types.CheckerAcceptsListed | neurom/core/types.py:106-113 | otherwise the checker accepts a type exactly when it is in the reference list |
| Types.FiltersAreCheckers | neurom/core/types.py:118-126 | dendrite_filter accepts exactly basal and apical dendrites and axon_filter exactly axons, like the checkers built from those types |
| Morphology.IsHomogeneousPoint | neurom/core/morphology.py:72-74 | true exactly when every child has the section's own type |
| Morphology.PendingPush | neurom/core/morphology.py:92-98 | pushing a node's children in reverse leaves their walks pending with the first child on top |
| Morphology.PreorderStep | neurom/core/morphology.py:92-98 | one turn of ipreorder's loop yields the top of the stack and leaves the rest of the preorder walk pending |
| Morphology.IPreorder | neurom/core/morphology.py:92-98 | ipreorder's stack loop yields exactly the preorder walk: the section, then each child's subtree in child order |
| Morphology.ExpandPending | neurom/core/morphology.py:104-108 | expanding an unseen top of ipostorder's stack leaves the same postorder walk pending |
| Morphology.PopStep | neurom/core/morphology.py:109-111 | popping a seen top yields it first and keeps the stack invariant |
| Morphology.ExpandInv | neurom/core/morphology.py:106-108 | expanding keeps the stack invariant: every node not yet expanded holds no expanded node and no later stack entry |
| Morphology.PostorderStep | neurom/core/morphology.py:104-111 | one turn of ipostorder's loop keeps the invariant and the pending walk, and makes progress |
| Morphology.IPostorder | neurom/core/morphology.py:100-111 | ipostorder's stack-and-seen-set loop yields exactly the postorder walk, each section after all its descendants and the start section last |
| Morphology.IUpstream | neurom/core/morphology.py:113-130 | iupstream yields the start section first and stops at the root, or at stop_node when it lies upstream, both included; a stop_node that is not upstream runs past the root and raises |
| Morphology.FilteredIteratorMembers | neurom/core/morphology.py:132-150 | ileaf, iforking_point and ibifurcation_point yield exactly the sections with 0, more than 1 and exactly 2 children |
| Morphology.SortByKeyStable | neurom/core/morphology.py:283-288 | Python's sorted by key: the result is ordered by key, is a permutation of the input, and keeps the input order among equal keys |
| Morphology.IterNeuritesNrnOrder | neurom/core/morphology.py:283-288 | NRN order sorts soma, axon, basal, apical, undefined, then every other type, keeping file order within each type |
| Morphology.IterNeurites | neurom/core/morphology.py:276-294 | every neurite yielded passes the filter; without subtrees and without a filter, the neurites yielded are the object's neurites, each as often as it occurs |
| Morphology.FirstHeterogeneous | neurom/core/morphology.py:290-294 | the first position at which the lazy subtree split meets a heterogeneous neurite: every earlier neurite is homogeneous |
| Morphology.IterNeuritesAsWritten | neurom/core/morphology.py:218-296 | as written, iter_neurites can only raise AttributeError, from reading `morphio_section` in _homogeneous_subtrees |
| Morphology.IterNeuritesAsWrittenRaises | neurom/core/morphology.py:218-294 | as written, iter_neurites raises exactly when use_subtrees is set and some neurite of the object is heterogeneous |
| Morphology.IterNeuritesAsWrittenPrefix | neurom/core/morphology.py:218-296 | what iter_neurites yields as written is a prefix of what the intended subtree split yields, and all of it when nothing is raised |
| Morphology.AxonCarryingRaises | neurom/core/morphology.py:218-294 | an axon carrying a basal dendrite, iterated with use_subtrees, raises AttributeError before yielding anything, where the intended split yields two subtrees |
| Morphology.SplitParts | neurom/core/morphology.py:290-293 | each homogeneous neurite is split into itself alone |
| Morphology.SplitFrom | neurom/core/morphology.py:290-293 | up to the first heterogeneous neurite the split leaves the neurites as they are |
| Morphology.IterNeuritesMembers | neurom/core/morphology.py:276-294 | without subtrees, iter_neurites yields exactly the neurites of the object that pass the filter |
| Morphology.IterNeuritesMap | neurom/core/morphology.py:296-304 | with a mapping function, the i-th value is the function applied to the i-th neurite iter_neurites yields, with that neurite's type as section_type exactly when subtrees are used |
| Morphology.TypeChangeMembers | neurom/core/morphology.py:227-229 | the sections that start a new homogeneous subtree are exactly those below the root whose type differs from their parent's |
| Morphology.HeterogeneousIffSplit | neurom/core/morphology.py:218-242 | the intended _homogeneous_subtrees gives two or more subtrees exactly when the neurite is heterogeneous |
| Morphology.HeterogeneousSplits | neurom/core/morphology.py:224-229 | a heterogeneous neurite has at least one change of type, hence at least two subtrees |
| Morphology.SplitHeterogeneous | neurom/core/morphology.py:224-229 | two or more subtrees mean that some section has another type than the root |
| Morphology.HomogeneousSubtrees | neurom/core/morphology.py:218-242 | the intended split lists the neurite itself first, then one neurite per section whose type differs from its parent's, in preorder; the warning flag is raised only when there are two subtrees or more, and AxonCarryingNoWarning with OtherSplitWarns give the converse |
| Morphology.AxonCarryingNoWarning | neurom/core/morphology.py:233-241 | an axon whose only change of type is to a basal dendrite splits into two subtrees and gives no warning |
| Morphology.OtherSplitWarns | neurom/core/morphology.py:233-241 | every other split into two subtrees or more gives the warning: more than one change of type, a root that is not an axon, or a first subtree that is not a basal dendrite |
| Morphology.SectionsOfMembers | neurom/core/morphology.py:340 | the flattened section iterations hold exactly the sections that some neurite's iteration yields |
| Morphology.IterSections | neurom/core/morphology.py:307-341 | every section yielded comes from a neurite that passes the neurite filter and passes the section filter; without a section filter it is every section of those neurites, in neurite order |
| Morphology.IterSectionsMembers | neurom/core/morphology.py:307-341 | iter_sections yields exactly the sections of the filtered neurites that pass the section filter, the neurite filter applied first |
| Morphology.NeuritePoints | neurom/core/morphology.py:436-446 | Neurite.points is the root section's first point followed by every section's points without its first, in preorder; IndexError when the root section has no point |
| Morphology.AppendTails | neurom/core/morphology.py:444-445 | the loop appends each section's points but the first, in order |
| DataWrapper.IdMapIndex | neurom/io/datawrapper.py:147-150 | with unique ids, id_map sends ROOT_ID to itself and each row's ID to the row's position, and holds no other key |
| DataWrapper.IdMapCovers | neurom/io/datawrapper.py:147-150 | id_map holds ROOT_ID and every row's ID, and every value is -1 or a row position, even when ids repeat |
| DataWrapper.SectionEndPoints | neurom/io/datawrapper.py:103-120 | the end points are the rows whose ID has no child row or more than one, together with the soma rows that are the parent of a neurite row |
| DataWrapper.CountPidSnoc | neurom/io/datawrapper.py:114-116 | counting children row by row adds one exactly for a row whose P is the id |
| DataWrapper.Step | neurom/io/datawrapper.py:170-200 | one row of the section loop keeps every recorded gap a position of a closed section |
| DataWrapper.Scan | neurom/io/datawrapper.py:170-200 | the row loop keeps the same gap property over all remaining rows |
| DataWrapper.StepShape | neurom/io/datawrapper.py:170-200 | one row either opens a new section after a gap and marks it an end point, extends the current section, or closes it at an end point, except for the last row |
| DataWrapper.StepChains | neurom/io/datawrapper.py:170-200 | each row keeps every section a chain of parent links through id_map |
| DataWrapper.StepPartition | neurom/io/datawrapper.py:170-200 | after row i, the sections' ids past their first cover rows 0..i exactly once and in order |
| DataWrapper.StepSizes | neurom/io/datawrapper.py:170-200 | each row keeps every closed section at two ids or more |
| DataWrapper.StepPs | neurom/io/datawrapper.py:187-188 | parent_section maps the last point of every closed section to that section |
| DataWrapper.StepGaps | neurom/io/datawrapper.py:190-195 | a section recorded as a gap is followed by the section that continues after the interleaved rows |
| DataWrapper.StepPids | neurom/io/datawrapper.py:164-200 | the row loop leaves every section's pid at its default |
| DataWrapper.FirstPass | neurom/io/datawrapper.py:145-200 | after the row loop every row but the parent ids lies in exactly one section, in row order, and every section is a chain of parent links of two rows or more, or empty |
| DataWrapper.ScanSucceeds | neurom/io/datawrapper.py:171-172 | the row loop succeeds when every P is the ID of some row or ROOT_ID |
| DataWrapper.ScanFails | neurom/io/datawrapper.py:171-172 | a P that is no row's ID makes the row loop raise KeyError |
| DataWrapper.Link | neurom/io/datawrapper.py:202-209 | linking one section keeps the number of sections |
| DataWrapper.Loop2 | neurom/io/datawrapper.py:202-209 | the section loop keeps the number of sections |
| DataWrapper.MergeTails | neurom/io/datawrapper.py:89-100 | merging empties the first section, and the second then starts where the first did and holds both sections' points, with the first's type and parent |
| DataWrapper.MergeChain | neurom/io/datawrapper.py:89-100 | merging two chains that meet end to start gives chains |
| DataWrapper.LinkShape | neurom/io/datawrapper.py:202-209 | a section takes the parent section of its first id, and is merged with its parent when that parent is a gap section, the parent being emptied |
| DataWrapper.LinkInv | neurom/io/datawrapper.py:202-209 | linking one section keeps the chains, the links already made and the untouched later sections |
| DataWrapper.Loop2Inv | neurom/io/datawrapper.py:202-209 | the section loop gives every section its link |
| DataWrapper.ChainRows | neurom/io/datawrapper.py:145-150 | with unique ids, a chain through id_map is a chain of P to ID links between rows |
| DataWrapper.ExtractedSections | neurom/io/datawrapper.py:145-213 | with unique ids, every section _extract_sections returns is a path of parent links whose first id is its first point's parent, and its pid names a section ending at that parent point, or one emptied by a merge |
| DataWrapper.ExtractSections | neurom/io/datawrapper.py:145-213 | the imperative _extract_sections returns what the two-pass specification gives, KeyError included |
| DataWrapper.ReadRow | neurom/io/datawrapper.py:170-200 | the imperative body of the row loop computes the step of the specification for row i, KeyError included |
| DataWrapper.LinkSection | neurom/io/datawrapper.py:202-209 | the imperative body of the section loop gives the link of the specification for section j |
| DataWrapper.RootIdsFrom | neurom/io/datawrapper.py:76-81 | neurite_root_section_ids raises IndexError exactly when some section's pid is past the end of the list |
| DataWrapper.RootIdsFromMembers | neurom/io/datawrapper.py:76-81 | the ids returned are exactly the sections with a soma parent section and a non-soma type, in increasing order |
| DataWrapper.DfsScanOk | neurom/io/datawrapper.py:170-200 | on a depth-first block (unique ids, every parent row above its child, and a row with one child followed by that child) the row loop never raises |
| DataWrapper.DfsFirstPass | neurom/io/datawrapper.py:170-200 | on a depth-first block the row loop records no gap section, and every section's first id is a point that parent_section names: the last point of a closed section, or ROOT_ID |
| DataWrapper.DepthFirstExtract | neurom/io/datawrapper.py:145-213 | on a depth-first block _extract_sections succeeds, and the sections' ids past their first cover every row exactly once, in row order |
| DataWrapperExamples.SplitSomaEndPoints | neurom/io/datawrapper.py:103-120 | on a split soma with two dendrites the end points are the first soma row, both dendrite tips and the soma row that carries the second dendrite |
| DataWrapperExamples.SplitSomaSections | neurom/io/tests/test_swc_reader.py:75-88 | a split soma with one dendrite on each piece gives the sections [-1,0], [0..4], [0,5,6] and [6..10], each dendrite hanging from a soma piece |
| DataWrapperExamples.RootsOfSomaDendritePairs | neurom/io/datawrapper.py:76-81 | for two soma sections each carrying one dendrite section, the neurite roots are the two dendrite sections |
| DataWrapperExamples.SplitSomaRoots | neurom/io/tests/test_swc_reader.py:75-88 | the neurite root section ids of that block are [1, 3] |
| DataWrapperExamples.ChildFirstKeyError | neurom/io/datawrapper.py:63-65 | a block whose child row comes before its parent row, which the class documentation allows, makes _extract_sections raise KeyError |
| DataWrapperExamples.LateForkOrder | neurom/io/datawrapper.py:63-65 | the LateFork block has unique ids and every parent row above its child, but a row with one child is not followed by it |
| DataWrapperExamples.LateForkLosesRow | neurom/io/datawrapper.py:145-213 | on that parents-first block _extract_sections succeeds, yet the last row, a basal dendrite point whose parent is row 1, ends up as a one-id section [4] of type 0 with parent -1, cut off from its parent row; no section lists it after its first id |
| BlockBuilder.SortIds | neurom/io/datawrapper.py:254 | sorted(self.sections): a permutation of the section ids, increasing since the ids are dictionary keys |
| BlockBuilder.InsertIdsAt | neurom/io/datawrapper.py:258-262 | id_to_insert_id maps each section id to the row of its last point, counted over the sections in id order |
| BlockBuilder.InsertIdsKeys | neurom/io/datawrapper.py:258-262 | id_to_insert_id has no key other than the section ids |
| BlockBuilder.InsertIdsParent | neurom/io/datawrapper.py:277 | the parent row of a section is the last row of its parent section, or ROOT_ID when the parent id names no section |
| BlockBuilder.SectionRows | neurom/io/datawrapper.py:264-278 | a section's rows carry its points and type, consecutive IDs from its start, and each row's parent is the row before, the first row's parent being the given parent row |
| BlockBuilder.DatablockNumbering | neurom/io/datawrapper.py:252-281 | _make_datablock numbers the rows 0 to n-1 and lays out the sections in id order, each in its own slice of rows linked to its parent section's last row |
| BlockBuilder.DatablockSlices | neurom/io/datawrapper.py:268-281 | the slice sections cover the rows 0 to n-1 exactly once, in order |
| BlockBuilder.DatablockError | neurom/io/datawrapper.py:274-277 | _make_datablock raises IndexError exactly when the section with the largest id has no points |
| BlockBuilder.InsertionIds | neurom/io/datawrapper.py:258-262 | the insertion loop computes the row count and id_to_insert_id of the specification |
| BlockBuilder.PaintSection | neurom/io/datawrapper.py:274-277 | writing one section's points, type and first parent into the block array gives its SectionRows and leaves the later rows at their initial ID and P |
| BlockBuilder.FillBlock | neurom/io/datawrapper.py:264-281 | the imperative fill of the block array gives the rows and slices of the specification, or IndexError |
| BlockBuilder.PaintNext | neurom/io/datawrapper.py:270-279 | one turn of the fill loop paints the next section in key order after the rows of the earlier ones, advancing the insert index to the next start and appending the section's slice |
| BlockBuilder.BlockNeuronBuilder.constructor | neurom/io/datawrapper.py:234-236 | a new builder has no sections |
| BlockBuilder.BlockNeuronBuilder.AddSection | neurom/io/datawrapper.py:238-250 | add_section stores the section under its id and records the order; an id already present fails the assertion and changes nothing |
| BlockBuilder.BlockNeuronBuilder.MakeDatablock | neurom/io/datawrapper.py:252-281 | _make_datablock returns the datablock specification of the stored sections |
| BlockBuilder.BlockNeuronBuilder.GetDatawrapper | neurom/io/datawrapper.py:292-296 | get_datawrapper wraps the datablock and its slice sections |
| Readers.ChildIdsMembers | neurom/io/readers.py:113-115 | the ids listed under a parent are exactly the ids of the rows whose P is that parent |
| Readers.AdjListRowOrder | neurom/io/readers.py:113-115 | the adjacency list has a key exactly for each id some row names as parent, holding that parent's children in row order |
| Readers.EndPointsOf | neurom/io/readers.py:148-155 | the end points are ids of the block that are not keys of the adjacency list, and every such id is one |
| Readers.EndPointsAreLeaves | neurom/io/readers.py:148-155 | on the freshly built list, the end points are exactly the row ids that no row names as parent |
| Readers.AdjAfterGet | neurom/io/readers.py:121 | reading the defaultdict at idx adds idx as a key with an empty list and leaves every other entry as it was |
| Readers.GetChildrenHidesEndPoint | neurom/io/readers.py:117-155 | after get_children on a leaf, get_end_points no longer reports that leaf |
| Readers.RawDataWrapper.constructor | neurom/io/readers.py:111-115 | __init__ keeps the block, offset and format, and builds the adjacency list row by row |
| Readers.RawDataWrapper.IterRow | neurom/io/readers.py:165-177 | iter_row raises LookupError unless the start id, the offset by default, falls on a row; otherwise it yields the rows from there that pass the predicate, in order |
| Readers.RawDataWrapper.IterRowAll | neurom/io/readers.py:165-177 | without arguments iter_row yields the whole block, or raises LookupError on an empty block |
| Readers.RawDataWrapper.GetIds | neurom/io/readers.py:157-159 | get_ids lists the ID column in row order, raising LookupError on an empty block |
| Readers.RawDataWrapper.GetIdsThroughIterRow | neurom/io/readers.py:157-159 | get_ids is the ID of each row iter_row yields |
| Readers.RawDataWrapper.GetParent | neurom/io/readers.py:127-131 | get_parent raises LookupError for an id no row has, and otherwise returns some row's P |
| Readers.RawDataWrapper.GetParentSequential | neurom/io/readers.py:127-131 | with ids counting up from the offset, get_parent of a row's id is that row's P |
| Readers.RawDataWrapper.GetRow | neurom/io/readers.py:139-142 | get_row gives None for an id at or below offset-1, IndexError past the last row, and otherwise the row at id minus offset |
| Readers.RawDataWrapper.GetEndPoints | neurom/io/readers.py:148-155 | every end point reported is the id of a row without children |
| Readers.RawDataWrapper.GetForkPoints | neurom/io/readers.py:161-163 | the fork points are exactly the ids that parent more than one row |
| Readers.RawDataWrapper.GetChildren | neurom/io/readers.py:117-121 | get_children raises LookupError for an id that is neither ROOT_ID nor a row's id, and otherwise returns the children in row order, inserting idx into the dictionary |
| Readers.RawDataWrapper.ChildrenOf | neurom/io/readers.py:117-121 | the same lookup without the insertion: the same answer, exactly the ids of the rows whose P is idx |
| NeurolucidaTokens.StripComment | neurom/io/neurolucida.py:71 | the line is cut before its first ';': the result is a prefix of the line without ';', and the character after it is ';' |
| NeurolucidaTokens.PadIsolates | neurom/io/neurolucida.py:78 | after padding, every parenthesis has whitespace or a line end on both sides |
| NeurolucidaTokens.PadKeepsText | neurom/io/neurolucida.py:78 | padding adds only whitespace: the non-space characters stay the same, in order |
| NeurolucidaTokens.WordsCover | neurom/io/neurolucida.py:78 | split() gives non-empty words without whitespace whose concatenation is the line's non-space text |
| NeurolucidaTokens.ParensStandAlone | neurom/io/neurolucida.py:78 | after padding and splitting, every word holding a parenthesis is that parenthesis alone, and no other character is lost |
| NeurolucidaTokens.SquashAllConcat | neurom/io/neurolucida.py:79-88 | squashing two runs of tokens one after the other is squashing their concatenation |
| NeurolucidaTokens.SquashPlain | neurom/io/neurolucida.py:85-88 | tokens that do not open a quote are yielded unchanged |
| NeurolucidaTokens.SquashQuoted | neurom/io/neurolucida.py:79-86 | a token opening a quote, the tokens after it and the token closing it are yielded as one token joined by spaces |
| NeurolucidaTokens.StreamError | neurom/io/neurolucida.py:74-76 | the tokens stop with AssertionError exactly at the first spine line that lacks ')>' |
| NeurolucidaTokens.StreamPlain | neurom/io/neurolucida.py:65-88 | without spine lines and quotes the tokens are all the words of all lines, in order |
| NeurolucidaTokens.QuoteAcrossLines | neurom/io/neurolucida.py:72-88 | as written, a quoted string opened on one line and closed on the next loses its first part: the lines '"a' and 'b"' give only 'b"' |
| NeurolucidaTokens.CarriedJoinsLines | neurom/io/neurolucida.py:72 | with the open quote carried over, line breaks act like spaces: the tokens are those of all the words squashed at once |
| NeurolucidaTokens.CarriedQuoteAcrossLines | neurom/io/neurolucida.py:72-88 | with the open quote carried over, the lines '"a' and 'b"' give the single token '"a b"' |
| NeurolucidaTokens.ReadLine | neurom/io/neurolucida.py:71-78 | reading one line classifies it as a spine, closed or not, or gives its padded words |
| NeurolucidaTokens.SquashLine | neurom/io/neurolucida.py:79-88 | the token loop of one line computes the squash of its words from the given state; the source passes the state with no open quote |
| NeurolucidaTokens.ReadStep | neurom/io/neurolucida.py:70-88 | one line of the generator extends the token stream or stops it with AssertionError |
| NeurolucidaTokens.GetTokens | neurom/io/neurolucida.py:65-88 | _get_tokens yields the token stream of the lines, stopping at the first unclosed spine with AssertionError |
| NeurolucidaTokens.ErrorStays | neurom/io/neurolucida.py:75 | once the generator has raised, later lines change nothing |
| NeurolucidaTokens.ReadStepCarried | neurom/io/neurolucida.py:70-88 | one line of the corrected loop carries the squash state on, or stops at an unclosed spine with AssertionError |
| NeurolucidaTokens.CarriedErrorStays | neurom/io/neurolucida.py:74-76 | once the spine assertion fails, later lines change nothing |
| NeurolucidaTokens.GetCarriedTokens | neurom/io/neurolucida.py:65-88 | the corrected loop, with the squash state kept from line to line, yields the carried token stream |
| NeurolucidaTokens.GetTokensBy | neurom/io/neurolucida.py:65-88 | the tokenizer chosen by the quoting rule: per line as written, or across lines |
| NeurolucidaParser.Consume | neurom/io/neurolucida.py:91-101 | _consume_until_balanced_paren leaves a suffix of the tokens, or raises the error that ended the token stream |
| NeurolucidaParser.ConsumeSkipsList | neurom/io/neurolucida.py:91-101 | on the tokens of well-formed s-expressions followed by ')', it stops right after that ')' |
| NeurolucidaParser.Parse | neurom/io/neurolucida.py:104-122 | _parse_section leaves a suffix of the tokens and only adds to the items gathered so far, or raises the stream's error |
| NeurolucidaParser.ParseRender | neurom/io/neurolucida.py:104-122 | parsing the tokens of well-formed s-expressions and a closing ')' gives back exactly those s-expressions and stops after the ')' |
| NeurolucidaParser.ParseWellFormed | neurom/io/neurolucida.py:104-122 | parsed lists are never empty and hold no parenthesis token or unwanted section name as an atom |
| NeurolucidaParser.TopLevel | neurom/io/neurolucida.py:125-135 | _top_level_sections yields only non-empty sections, and stops only with the token stream's error |
| NeurolucidaParser.TopLevelRender | neurom/io/neurolucida.py:125-135 | on the tokens of well-formed non-empty sections in parentheses, the top-level sections are exactly those sections |
| NeurolucidaParser.TopLevelWellFormed | neurom/io/neurolucida.py:125-135 | every top-level section is well-formed |
| NeurolucidaParser.ConsumeUntilBalancedParen | neurom/io/neurolucida.py:91-101 | the counting loop stops where the specification does, or raises the same error |
| NeurolucidaParser.ParseSection | neurom/io/neurolucida.py:104-122 | the recursive loop over the shared token iterator gives the specification's items and position |
| NeurolucidaParser.ParseToken | neurom/io/neurolucida.py:110-121 | one token either continues the parse at a later position or ends it with the specification's result |
| NeurolucidaParser.TopLevelSections | neurom/io/neurolucida.py:125-135 | the generator yields the specification's sections and error |
| NeurolucidaParser.TopStep | neurom/io/neurolucida.py:125-135 | one top-level token: a list parsed whole and yielded when non-empty, its parse error ending the stream, or any other token skipped |
| Neurolucida.FurcationsSplit | neurom/io/neurolucida.py:167-176 | _find_furcations cuts the rows at every '\|' into consecutive slices that hold no '\|' and cover everything else, in order |
| Neurolucida.Furcations | neurom/io/neurolucida.py:167-176 | the slices are ordered, within bounds, and one more than the '\|' rows |
| Neurolucida.FindFurcations | neurom/io/neurolucida.py:167-176 | the loop over the rows builds the slices of the specification |
| Neurolucida.Float | neurom/io/neurolucida.py:162 | float() of a list raises TypeError and of an unparsable string ValueError |
| Neurolucida.RowPoint | neurom/io/neurolucida.py:162 | a point row gives X, Y, Z and half the diameter, once all four columns parse |
| Neurolucida.RowStep | neurom/io/neurolucida.py:148-162 | a row is a block marker when it is a non-empty string, a furcation when it is a list starting with a list, a point when it is a list of 4 or 5 columns, and otherwise fails the column-count assertion |
| Neurolucida.PointsStop | neurom/io/neurolucida.py:142-164 | _extract_section_points walks rows up to the end or the first furcation, and the points found plus the markers skipped are the rows walked |
| Neurolucida.ExtractSectionPoints | neurom/io/neurolucida.py:142-164 | the loop gives the points and the rows walked of the specification |
| Neurolucida.SubsectionEnd | neurom/io/neurolucida.py:179-204 | read_subsection adds one section of the parent point and the points, and stops when no list follows; vstack with no point raises ValueError |
| Neurolucida.SubsectionFork | neurom/io/neurolucida.py:188-202 | when a list follows the points, each non-empty slice between '\|' rows is read as a child section starting at the last point |
| Neurolucida.SubsectionTree | neurom/io/neurolucida.py:179-204 | the sections read are numbered from id on, all of the given type, the first hanging from parent_id, every other from an earlier one and starting at its last point |
| Neurolucida.ChildrenTree | neurom/io/neurolucida.py:195-202 | the children of a fork are numbered on from next, each a child of the fork section or of an earlier child |
| Neurolucida.ReadSubsection | neurom/io/neurolucida.py:179-204 | the recursive method adds to the builder exactly the sections of the specification, in order, and returns the next free id, or raises the same exception |
| Neurolucida.AddSubsection | neurom/io/neurolucida.py:187-204 | once the points are extracted, the section is added and the furcation after it read, with the builder ending as the specification says |
| Neurolucida.ReadChildren | neurom/io/neurolucida.py:195-202 | the loop over the furcation slices adds the children of the specification |
| Neurolucida.ReadSlices | neurom/io/neurolucida.py:195-202 | reading the slices in turn adds the children of all of them, or stops at the first exception with the earlier ones added |
| Neurolucida.ReadChild | neurom/io/neurolucida.py:195-202 | one turn of the slice loop leaves the builder holding what the first k + 1 slices add |
| Neurolucida.ReadPiece | neurom/io/neurolucida.py:197-202 | one slice is skipped when empty and read as a subsection otherwise |
| Neurolucida.TypeOf | neurom/io/neurolucida.py:219-224 | WANTED_SECTIONS.get(section[i][0]) gives the type of a wanted name, None for any other string, and IndexError or TypeError when there is no string to look up |
| Neurolucida.SectionKind | neurom/io/neurolucida.py:218-228 | the type comes from the first element, else from the second with the points starting one later; a section with neither is skipped |
| Neurolucida.TopPieceForest | neurom/io/neurolucida.py:230-239 | a soma section hangs from ROOT_ID and a neurite from section 0, and the rest of each tree from earlier sections |
| Neurolucida.ReadSectionsForest | neurom/io/neurolucida.py:214-239 | the sections read from a file are numbered from 0 and each is a root or a child of an earlier one |
| Neurolucida.ReadSpec | neurom/io/neurolucida.py:207-241 | whichever tokenizer and furcation rule are chosen, the datablock read numbers its rows 0 to n-1 |
| Neurolucida.ReadSpecOf | neurom/io/neurolucida.py:207-241 | read is the datablock of the builder holding the sections of every top-level section, or the first exception raised |
| Neurolucida.ReadTop | neurom/io/neurolucida.py:218-239 | one top-level section adds the sections of the specification to the builder |
| Neurolucida.FeedSections | neurom/io/neurolucida.py:216-239 | the loop over the top-level sections fills the builder as the specification does |
| Neurolucida.Read | neurom/io/neurolucida.py:207-241 | read returns the datablock of the specification |
| Neurolucida.PointsWithMarker | neurom/io/neurolucida.py:152-155 | a block marker among the point rows adds a row walked and no point |
| Neurolucida.TwoBranches | neurom/io/neurolucida.py:179-204 | a point followed by a two-way furcation gives the root section and two children starting at its point |
| Neurolucida.MarkerHidesFurcation | neurom/io/neurolucida.py:181-192 | as written, a block marker before a furcation makes read_subsection look at the marker instead, so both branches are lost; counting rows walked keeps them |
| Neurolucida.SubsectionIgnoresMarker | neurom/io/neurolucida.py:181-192 | counting the rows walked, a block marker among the point rows changes nothing in the sections read |
| Hdf5.GetVersion | neurom/io/hdf5.py:51-60 | H5V1 exactly when both 'points' and 'structure' are present, otherwise H5V2 exactly when 'neuron1/structure' is, otherwise None |
| Hdf5.RemovesFirst | neurom/io/hdf5.py:116-120 | a group loses its first point exactly when it is not a root, not a soma and not the child of a soma; a parent index out of range raises IndexError |
| Hdf5.ToBeRemoved | neurom/io/hdf5.py:114-125 | one first point is listed for each group that loses it |
| Hdf5.DeleteRows | neurom/io/hdf5.py:128 | np.delete keeps every row not listed, in order, and raises IndexError for an index out of range |
| Hdf5.ReducedGroups | neurom/io/hdf5.py:113-127 | each group's first point moves back by the number of earlier groups that lose a point |
| Hdf5.RemoveDuplicatePointsSpec | neurom/io/hdf5.py:103-130 | the groups keep their type and parent and their first points move back by the points removed before them; the points kept are the input points, in order, less those listed for removal; the only error is IndexError |
| Hdf5.RemoveDuplicatePoints | neurom/io/hdf5.py:103-130 | the loop computes the specification's points and groups |
| Hdf5.ScanGroups | neurom/io/hdf5.py:116-125 | the loop over the groups lists the points to remove and the shift of every group |
| Hdf5.AddFrom | neurom/io/hdf5.py:125 | to_be_reduced[ig + 1:] += 1 adds one at every position from ig + 1 on and changes nothing before |
| Hdf5.DeleteRowsLength | neurom/io/hdf5.py:128 | deleting distinct valid indices removes exactly that many rows |
| Hdf5.ToBeRemovedIncreasing | neurom/io/hdf5.py:114-125 | on well-formed groups the points to remove are distinct, increasing and within the point list |
| Hdf5.RemovedPointsCount | neurom/io/hdf5.py:103-130 | on well-formed groups removal succeeds and the points shrink by exactly the number of groups that lose their first point |
| Hdf5.KeptFirstPoints | neurom/io/hdf5.py:118-120 | root sections, soma sections and children of a soma keep their first point |
| Hdf5.ToBeRemovedMember | neurom/io/hdf5.py:114-125 | a point is listed for removal exactly when it is the first point of a group that loses its first point |
| Hdf5.ListedRemoved | neurom/io/hdf5.py:114-128 | on well-formed groups np.delete drops a row exactly when it is the first point of a group that loses it |
| Hdf5.KeptSlice | neurom/io/hdf5.py:103-130 | after removal, a group's points, shifted back by the points removed before it, are its old points less its first point exactly when that point was removed |
| Hdf5.RemovalSlices | neurom/io/hdf5.py:93-130 | the slice read cuts for a group from the reduced points and groups is the group's original slice, without its first point exactly when that point was a duplicate of the parent's last point |
| Hdf5.PySlice | neurom/io/hdf5.py:98 | points[point_start:point_end] is the ordinary slice when its bounds are in order and in range |
| Hdf5.HalveDiameters | neurom/io/hdf5.py:92 | the diameter column is halved into a radius and nothing else changes |
| Hdf5.SlicesTile | neurom/io/hdf5.py:93-98 | with contiguous groups the sections' points, one after another, are the whole point list |
| Hdf5.SliceNonEmpty | neurom/io/hdf5.py:93-98 | with increasing first points inside the list, every section has at least its first point |
| Hdf5.GroupSections | neurom/io/hdf5.py:93-98 | one section per group, keyed 0 to n-1 |
| Hdf5.AddGroupSections | neurom/io/hdf5.py:93-98 | the loop adds the sections in group order, with the group's parent, type and slice of points |
| Hdf5.ReadSpec | neurom/io/hdf5.py:88-89 | with remove_duplicates an IndexError of the removal is raised |
| Hdf5.Read | neurom/io/hdf5.py:67-100 | read from the unpacked points and groups gives the datablock of the specification |
| Hdf5.ReadWithoutRemoval | neurom/io/hdf5.py:86-100 | without duplicate removal, groups whose first points increase inside the point list never make read raise, and the rows come out numbered 0, 1, ... in order |
| FstCore.TreeTypeAsWritten | neurom/fst/_core.py:89-129 | _TREE_TYPES[ntype] as written indexes the enumeration by position: IndexError outside -12..11 |
| FstCore.TreeTypeAsWrittenMisreadsSoma | neurom/fst/_core.py:89-129 | read as a position, the SOMA code gives apical_dendrite and the AXON code basal_dendrite, and only 4 and -8 give the soma type |
| FstCore.TreeType | neurom/fst/_core.py:89-129 | the type of a section as intended: the soma type exactly for the SOMA code, the member with that code otherwise, IndexError for a code naming no member |
| FstCore.AsWrittenTrunkAttached | neurom/fst/_core.py:93-129 | as written, a neurite root whose parent is a soma section is still attached to it, since no soma section gets the soma type |
| FstCore.Gather | neurom/fst/_core.py:88 | data_block[sec.ids] takes one row per id, negative ids counting from the end, and raises IndexError out of range |
| FstCore.MakeNode | neurom/fst/_core.py:87-90 | a node has its section index as id, the type of its code and the rows of its ids |
| FstCore.Nodes | neurom/fst/_core.py:87-90 | one node per section, in order |
| FstCore.LinkOf | neurom/fst/_core.py:93-98 | a node is attached to its parent section exactly when the parent is not ROOT_ID and not a soma section |
| FstCore.ChildrenUpToMembers | neurom/fst/_core.py:93-98 | the children of a node are exactly the nodes attached to it, in increasing order |
| FstCore.ChildrenOf | neurom/fst/_core.py:93-98 | the children lists of all nodes, one per section |
| FstCore.ParentsOf | neurom/fst/_core.py:93-98 | the parent of every node, one per section |
| FstCore.RemoveSomaInitialPoint | neurom/fst/_core.py:109-112 | the first point is dropped exactly when it is a soma point; a section without points raises IndexError |
| FstCore.RemoveAtTrunks | neurom/fst/_core.py:102-104 | the post action changes exactly the trunk nodes, and fails when one of them has no points |
| FstCore.MakeNeuritesSpec | neurom/fst/_core.py:79-106 | an unknown format raises KeyError; no neurite root gives no neurites and no nodes; otherwise one node per section and the trunks are the neurite root section ids |
| FstCore.RootIdsAreTrunks | neurom/fst/_core.py:82 | every trunk is a section index whose parent is a soma section and which is not one itself |
| FstCore.ForestTypes | neurom/fst/_core.py:87-90 | every node carries the type of its section's code |
| FstCore.ParentChildConsistent | neurom/fst/_core.py:93-98 | a node lists c as a child exactly when c's parent is that node, and children are kept in section order |
| FstCore.AttachedIff | neurom/fst/_core.py:93-98 | a node has a parent exactly when its section's parent is not ROOT_ID and not a soma section |
| FstCore.TrunksAreRoots | neurom/fst/_core.py:93-100 | every trunk is a root of the node forest |
| FstCore.MakeNeurites | neurom/fst/_core.py:79-106 | make_neurites builds in a tree store the nodes, parents, children and trunks of the specification, or raises the same exception |
| FstCore.BuildNodes | neurom/fst/_core.py:87-90 | the first pass creates one unlinked node per section |
| FstCore.LinkNodes | neurom/fst/_core.py:93-98 | the second pass links each node to its parent node as the specification says |
| FstCore.RemoveSomaPoints | neurom/fst/_core.py:102-104 | the post action changes the trunk nodes' points as the specification says and leaves the links alone |
| FstCore.CheckSomaTopologySwc | neurom/fst/_core.py:115-126 | a three-point soma always passes; otherwise SomaError exactly when two points share a parent other than ROOT_ID |
| FstCore.SomaParentsMembers | neurom/fst/_core.py:124 | the parents gathered are exactly the P values other than ROOT_ID |
| FstCore.SomaParentsDistinct | neurom/fst/_core.py:124-126 | the parents repeat exactly when two points share a parent other than ROOT_ID |
| Neuron.MakeSoma | neurom/core/neuron.py:116-129 | SomaError exactly for 0 or 2 points; otherwise soma A for one point, B for three, C for more, holding the points, with the first point as center |
| Neuron.SomaARadius | neurom/core/neuron.py:68-76 | a one-point soma has that point's radius |
| Neuron.SomaBRadius | neurom/core/neuron.py:79-91 | a three-point soma's radius is the mean distance from the first point to the other two |
| Neuron.SomaCRadius | neurom/core/neuron.py:94-108 | a soma of more points has as radius the mean distance from the first point to all the others |
| Neuron.SomaRadiusNonNegative | neurom/core/neuron.py:68-108 | with non-negative distances and a non-negative single radius, every soma radius is non-negative |
| Neuron.SomaOf | neurom/core/neuron.py:68-107 | soma A, B and C keep their points and take the first point's coordinates as the center; soma A's radius is the first point's radius |
| SectionFeatures.SegmentLengths | neurom/features/sectionfunc.py:90-92 | one length per pair of consecutive points, the distance between them, after a leading 0 when prepend_zero is set |
| SectionFeatures.LengthsConcat | neurom/features/sectionfunc.py:38-40 | summing section lengths over two runs of sections is summing each run and adding |
| SectionFeatures.ChordAtMostPath | neurom/features/sectionfunc.py:53-64 | for a metric distance, the straight distance from the first point to any later one is at most the path length up to it |
| SectionFeatures.SectionPathLengthStep | neurom/features/sectionfunc.py:38-40 | section_path_length of a root section is its length, and of any other section its length plus its parent's section_path_length |
| SectionFeatures.DownstreamStep | neurom/features/sectionfunc.py:163-165 | downstream_pathlength is the section's length plus the downstream lengths of its children, and a leaf's own length |
| SectionFeatures.KidsLength | neurom/features/sectionfunc.py:163-165 | the lengths of the preorder walks of the children sum to their downstream lengths |
| SectionFeatures.BranchOrder | neurom/features/sectionfunc.py:79-87 | branch_order is the number of upstream sections minus one: the depth, 0 exactly at a root |
| SectionFeatures.BranchOrderChild | neurom/features/sectionfunc.py:79-87 | a child's branch order is its parent's plus one |
| SectionFeatures.SectionEndDistance | neurom/features/sectionfunc.py:67-76 | 0 for fewer than 2 points, otherwise the distance from the last point to the first |
| SectionFeatures.SectionTortuosity | neurom/features/sectionfunc.py:53-64 | 1 for fewer than 2 points; no finite value exactly when the end distance is 0 |
| SectionFeatures.TortuosityTimesEndDistance | neurom/features/sectionfunc.py:53-64 | tortuosity times end distance is the section's path length |
| SectionFeatures.TortuosityAtLeastOne | neurom/features/sectionfunc.py:53-64 | for a metric distance, a finite tortuosity is at least 1 |
| SectionFeatures.SectionRadialDistance | neurom/features/sectionfunc.py:95-106 | the distance from the last point to the origin, IndexError for a section without points |
| SectionFeatures.SectionMeanderAngles | neurom/features/sectionfunc.py:109-113 | len(points) - 2 angles, none below three points, the k-th taken at point k+1 between points k and k+2 |
| SectionFeatures.SecondAny | neurom/features/sectionfunc.py:128-132 | calling any twice on the same iterator is true exactly when two children reach the maximum |
| SectionFeatures.StrahlerOrder | neurom/features/sectionfunc.py:116-146 | the Strahler order is at least 1 |
| SectionFeatures.StrahlerRules | neurom/features/sectionfunc.py:116-146 | a leaf has order 1; otherwise the order is the children's maximum, plus one exactly when two or more children reach it |
| SectionFeatures.StrahlerAtLeastChildren | neurom/features/sectionfunc.py:116-146 | a section's Strahler order is never below a child's |
| Bifurcation.WalkSize | neurom/features/bifurcation.py:133-143 | the preorder and postorder walks of a subtree both visit exactly its number of sections |
| Bifurcation.CheckBifurcation | neurom/features/bifurcation.py:40-45 | _raise_if_not_bifurcation raises NeuroMError exactly when the section does not have two children |
| Bifurcation.PartitionPair | neurom/features/bifurcation.py:133-143 | the pair of section counts the iterator gives for the first two children; IndexError with fewer than two |
| Bifurcation.PartitionPairSizes | neurom/features/bifurcation.py:133-143 | with ipreorder or ipostorder the pair is the sizes of the two child subtrees |
| Bifurcation.Partition | neurom/features/bifurcation.py:105 | max(n, m) / min(n, m): the larger over the smaller, ZeroDivisionError when the smaller is 0 |
| Bifurcation.BifurcationPartition | neurom/features/bifurcation.py:93-105 | NeuroMError exactly off a bifurcation; otherwise the partition of the pair |
| Bifurcation.BifurcationPartitionAtLeastOne | neurom/features/bifurcation.py:93-105 | at a bifurcation, with ipreorder, the partition exists and is at least 1 |
| Bifurcation.Asymmetry | neurom/features/bifurcation.py:124-130 | 0 for the pair (1, 1); otherwise abs(n - m) over abs(n + m - c), c being 2 for uylings and 0 otherwise, ZeroDivisionError when that is 0 |
| Bifurcation.PartitionAsymmetry | neurom/features/bifurcation.py:108-130 | NeuroMError exactly off a bifurcation; otherwise the asymmetry of the pair |
| Bifurcation.AsymmetryOfSizes | neurom/features/bifurcation.py:124-130 | for two subtree sizes of at least 1 the asymmetry exists, lies in [0, 1] and is 0 exactly for equal sizes |
| Bifurcation.PartitionAsymmetryBounds | neurom/features/bifurcation.py:108-130 | at a bifurcation, with ipreorder, partition_asymmetry lies in [0, 1] and is 0 exactly when both child subtrees have the same size |
| Bifurcation.ParseMethod | neurom/features/bifurcation.py:156-164 | only 'first' and 'mean' are accepted; any other method raises ValueError |
| Bifurcation.ChildRadius | neurom/features/bifurcation.py:156-162 | 'first' takes the radius of a child's second point, IndexError with fewer than two points; 'mean' takes its mean radius |
| Bifurcation.SiblingRatio | neurom/features/bifurcation.py:146-166 | NeuroMError off a bifurcation, ValueError for an unknown method, otherwise the smaller child radius over the larger, with no finite value when the larger is 0 |
| Bifurcation.SiblingRatioBounds | neurom/features/bifurcation.py:146-166 | with non-negative radii the sibling ratio lies in [0, 1] |
| Bifurcation.MovedFrom | neurom/features/bifurcation.py:61-64 | the scan finds the first point from k on whose X, Y, Z differ from the first point's, or none |
| Bifurcation.Skip0LengthSpec | neurom/features/bifurcation.py:57-66 | IndexError below two points; otherwise the first point after the first with other coordinates, or the second point when there is none |
| Bifurcation.Skip0Length | neurom/features/bifurcation.py:57-66 | the loop of skip_0_length returns the point of the specification |
| Bifurcation.LastPoint | neurom/features/bifurcation.py:75-89 | points[-1] is the last point, IndexError for a section without points |
| Bifurcation.LocalBifurcationAngle | neurom/features/bifurcation.py:48-75 | NeuroMError off a bifurcation; otherwise the angle at the section's last point between the first moved points of the two children, IndexError when a child has fewer than two points |
| Bifurcation.RemoteBifurcationAngle | neurom/features/bifurcation.py:78-90 | NeuroMError off a bifurcation; otherwise the angle at the section's last point between the last points of the two children |
| NeuriteFeatures.IsTypeIff | neurom/core/types.py:72-110 | tree_type_checker of one type accepts a section exactly when the type is `all` or is the section's type |
| NeuriteFeatures.MapSections | neurom/features/neurite.py:68-84 | one result per selected section, in iterator order: fun applied to each section the filter keeps |
| NeuriteFeatures.MapSectionsMembers | neurom/features/neurite.py:68-84 | a section is mapped exactly when the iterator visits it, it passes the type check and, for a specific non-composite type under ibifurcation_point or iforking_point, it is a homogeneous point |
| NeuriteFeatures.NumberOfSections | neurom/features/neurite.py:93-98 | the number of sections is the length of the mapped list |
| NeuriteFeatures.CountAllTypes | neurom/features/neurite.py:93-98 | for `all` the count is the number of sections the iterator visits |
| NeuriteFeatures.CountsOfAllTypes | neurom/features/neurite.py:93-120 | for `all`, number_of_sections is the subtree size and number_of_bifurcations, number_of_forking_points and number_of_leaves count the sections of ibifurcation_point, iforking_point and ileaf |
| NeuriteFeatures.Collect | neurom/features/neurite.py:84 | building the list fails with the first error a section raises, in order; otherwise it holds every value |
| NeuriteFeatures.Origin | neurom/features/neurite.py:419-421 | the given origin, or the root section's first point, IndexError when it has none |
| NeuriteFeatures.RadialDistances | neurom/features/neurite.py:419-428 | one distance per mapped section, from its last point to the origin; the origin's IndexError otherwise |
| NeuriteFeatures.MaxRadialDistance | neurom/features/neurite.py:441-453 | the largest radial distance of the terminal sections, 0.0 when there are none, and the error of the distances otherwise |
| NeuriteFeatures.MaxRadialDistanceNoLeaves | neurom/features/neurite.py:447-453 | with no selected leaf the maximum is 0.0 |
| NeuriteFeatures.ParseVariant | neurom/features/neurite.py:322-326 | only 'branch-order' and 'length' are valid variants; anything else raises ValueError |
| NeuriteFeatures.ParseUylings | neurom/features/neurite.py:327-331 | only 'petilla' and 'uylings' are valid methods, uylings exactly for 'uylings'; anything else raises ValueError |
| NeuriteFeatures.NeuritePartitionAsymmetry | neurom/features/neurite.py:312-353 | ValueError for a bad variant, then for a bad method; otherwise partition_asymmetry of each mapped bifurcation with the type-filtered preorder iterator, or the length asymmetry for 'length' |
| NeuriteFeatures.SelectedBifurcationChildren | neurom/features/neurite.py:68-84 | a mapped bifurcation of a specific non-composite type has two children, each of which the type-filtered preorder visits at least once |
| NeuriteFeatures.NeuritePartitionAsymmetryDefined | neurom/features/neurite.py:312-345 | for a non-composite type and a valid method the branch-order variant raises nothing and every value lies in [0, 1] |
| NeuriteFeatures.PathOffsetStep | neurom/features/neurite.py:266-272 | the offset of a section is its parent's length plus its parent's offset |
| NeuriteFeatures.PathOffsetIsParentPathLength | neurom/features/neurite.py:266-272 | from the neurite root, the offset of a section is 0 at the root and otherwise the path length to the end of its parent |
| NeuriteFeatures.CumSum | neurom/features/neurite.py:274 | np.cumsum: entry k is the sum of the first k + 1 values |
| NeuriteFeatures.SegmentPathsFrom | neurom/features/neurite.py:274 | one value per segment: the offset plus the running sum of the segment lengths |
| NeuriteFeatures.SegmentPaths | neurom/features/neurite.py:266-274 | one value per segment: the section's offset plus the length along the section to that segment's end |
| NeuriteFeatures.SegmentPathsEnd | neurom/features/neurite.py:261-276 | the last value of a section is its path length from the root |
| NeuriteFeatures.Apply | neurom/features/neurite.py:84 | map: one result per input, in order |
| NeuriteFeatures.FlattenApplyFilterStep | neurom/features/neurite.py:198-203 | extending the walk by one section appends that section's values when it is selected |
| NeuriteFeatures.SegmentPathLengthsUpToMap | neurom/features/neurite.py:261-276 | the values of the first i walked sections are the flattened per-section values of the selected ones |
| NeuriteFeatures.SegmentPathLengthsMap | neurom/features/neurite.py:261-276 | segment_path_lengths is _map_segments of the per-section path lengths over the selected sections |
| NeuriteFeatures.UpToStep | neurom/features/neurite.py:266-274 | one walked section appends its segment path lengths exactly when it is selected |
| NeuriteFeatures.ParentEarlier | neurom/features/neurite.py:266-272 | a non-root section's parent comes earlier in the preorder walk |
| NeuriteFeatures.MemoInsert | neurom/features/neurite.py:267-272 | storing a section's correct offset keeps every stored offset correct |
| NeuriteFeatures.MemoAdvance | neurom/features/neurite.py:267-272 | after a section is handled, every earlier selected section is stored and none was orphaned |
| NeuriteFeatures.SegmentPathLengthsMemo | neurom/features/neurite.py:261-276 | the memoised loop as written raises KeyError exactly when a selected section has an unselected parent, and otherwise returns the path lengths of the specification |
| NeuriteFeatures.MemoStep | neurom/features/neurite.py:266-274 | one section of the memoised loop either stops at an orphan or keeps the memo correct and complete |
| NeuriteFeatures.MixedNeuriteShape | neurom/features/neurite.py:261-276 | the two-section example neurite walks root then child |
| NeuriteFeatures.MixedNeuriteLengths | neurom/features/neurite.py:261-276 | in the example the root has length dist(a, b) and the child one segment of length dist(b, a) |
| NeuriteFeatures.MixedNeuriteOrphan | neurom/features/neurite.py:261-276 | a basal root with an axon child: the memoised version raises KeyError for the axon, whose intended path length is dist(a, b) + dist(b, a) |
| NeuriteFeatures.NumberOfBifurcations | neurom/features/neurite.py:101-106 | at most the number of bifurcation points of the neurite, and exactly that number for NeuriteType.all |
| NeuriteFeatures.NumberOfForkingPoints | neurom/features/neurite.py:109-114 | at most the number of forking points of the neurite, and exactly that number for NeuriteType.all |
| NeuriteFeatures.NumberOfLeaves | neurom/features/neurite.py:117-120 | at most the number of leaves of the neurite, and exactly that number for NeuriteType.all |
| FeatureRegistry.InitialFeatures | neurom/core/features.py:39-40 | the registry starts with the two namespaces NEURITEFEATURES and NEURONFEATURES, both empty |
| FeatureRegistry.AddsOnlyAt | neurom/core/features.py:58-69 | after a registration every namespace and name was there before or is one of the names just registered |
| FeatureRegistry.Register | neurom/core/features.py:58-69 | KeyError for an unknown namespace, NeuroMError for a name already registered there; otherwise the name maps to func and nothing else changes |
| FeatureRegistry.RegisterNeverHides | neurom/core/features.py:58-69 | registering the same name twice raises NeuroMError: a feature is never hidden |
| FeatureRegistry.NameSet | neurom/core/features.py:78 | the names are the whitespace-separated words of `names` together with the function's own name, and nothing else |
| FeatureRegistry.RegisterEachResult | neurom/core/features.py:72-82 | registering distinct names in turn keeps every earlier entry, fails exactly when some name is taken (NeuroMError) or the namespace is missing (KeyError), and on success maps every name to func and adds nothing else |
| FeatureRegistry.FindNamespace | neurom/core/features.py:97-102 | the first namespace in resolution order that holds the name; NeuroMError when none does; KeyError when an earlier namespace does not exist |
| FeatureRegistry.LookupDefaultOrder | neurom/core/features.py:85-102 | with the default order a neurite feature wins over a neuron feature of the same name, and a name in neither raises NeuroMError |
| FeatureRegistry.RegisterThenLookup | neurom/core/features.py:58-102 | a neurite feature that was registered is what get finds under its name |
| FeatureRegistry.NeuriteValues | neurom/core/features.py:51-53 | func applied to each neurite of the requested type, in order |
| FeatureRegistry.NeuriteValuesMembers | neurom/core/features.py:51-53 | a neurite is mapped exactly when it belongs to the object and the type is `all` or its own |
| FeatureRegistry.Registry.constructor | neurom/core/features.py:39-40 | a fresh registry holds the two empty namespaces |
| FeatureRegistry.Registry.RegisterFeature | neurom/core/features.py:58-69 | the registry becomes the result of the registration, or is left unchanged and the error is reported |
| FeatureRegistry.Registry.RegisterNeuriteFeature | neurom/core/features.py:43-55 | registers, under NEURITEFEATURES, the wrapper that maps func over the neurites of the requested type |
| FeatureRegistry.Registry.Feature | neurom/core/features.py:72-82 | the decorator registers func under every name of the name set, in turn, stopping at the first error |
| FeatureRegistry.Registry.Get | neurom/core/features.py:85-104 | the values of the feature found in resolution order, or the lookup's error |
| MorphStats.EvalStats | neurom/apps/morph_stats.py:54-72 | 'raw' gives the values, 'total' and 'sum' their sum, any other mode None on no values; min and max are a member below or above every value; other modes are numpy's answer or its error |
| MorphStats.EvalStatsEmpty | neurom/apps/morph_stats.py:62-63 | on no values 'raw' gives [], 'total' 0.0 and the other modes None |
| MorphStats.EvalTotalConcat | neurom/apps/morph_stats.py:67-72 | the total of two value lists joined is the sum of their totals |
| MorphStats.Singular | neurom/apps/morph_stats.py:77-80 | a trailing 's' is dropped and soma_radii becomes soma_radius; other names are kept |
| MorphStats.StatName | neurom/apps/morph_stats.py:75-84 | IndexError for an empty feature name; the singular name for 'raw'; otherwise mode, '_' and the singular name |
| MorphStats.StatNameExamples | neurom/apps/morph_stats.py:75-84 | foo and foos give foo, bar_foo and total_foo; soma_radii gives soma_radius and total_soma_radius |
| MorphStats.StatNameInjective | neurom/apps/morph_stats.py:75-84 | two different modes never give the same stat name for one feature |
| MorphStats.Fields | neurom/apps/morph_stats.py:209-214 | a scalar entry gives its key; a dict entry gives key:metric for each metric, in order |
| MorphStats.GetHeader | neurom/apps/morph_stats.py:206-216 | StopIteration for no results; otherwise 'name' followed by the fields of the first result, in order |
| MorphStats.AppendFields | neurom/apps/morph_stats.py:210-215 | the inner loop appends exactly the fields of one entry |
| MorphStats.SplitOn | neurom/apps/morph_stats.py:226 | str.split gives at least one part, and the whole string when the separator is absent |
| MorphStats.SplitJoin | neurom/apps/morph_stats.py:226 | 'key:metric' with no ':' in either part splits back into key and metric |
| MorphStats.Find | neurom/apps/morph_stats.py:227-229 | dictionary lookup finds a value exactly when some entry has the key |
| MorphStats.Row | neurom/apps/morph_stats.py:221-230 | a row has one item per header, in order, and fails exactly when some header is missing from the result |
| MorphStats.FlattenedRow | neurom/apps/morph_stats.py:221-230 | the loop over the headers builds that row or fails when it fails |
| MorphStats.Rows | neurom/apps/morph_stats.py:219-231 | one row per result, in order, failing exactly when some row fails |
| MorphStats.ValuesOf | neurom/apps/morph_stats.py:209-214 | one value per field of the header |
| MorphStats.FindMetric | neurom/apps/morph_stats.py:227-228 | with distinct metric names each metric is found under its own name |
| MorphStats.HeadFieldItem | neurom/apps/morph_stats.py:221-230 | a field of the first entry picks that entry's value |
| MorphStats.TailFieldItem | neurom/apps/morph_stats.py:221-230 | a field that does not name an entry is not answered by it |
| MorphStats.WellFormedTail | neurom/apps/morph_stats.py:206-231 | the entries after the first keep distinct keys without ':' |
| MorphStats.TailFieldShape | neurom/apps/morph_stats.py:206-231 | a field of a later entry never names the first entry |
| MorphStats.FieldOwner | neurom/apps/morph_stats.py:209-214 | every header field comes from one entry: its key, or its key and one of its metrics |
| MorphStats.ItemsOfOwnHeader | neurom/apps/morph_stats.py:219-231 | each header field of a result picks, from that result, the value in the same position |
| MorphStats.OwnRow | neurom/apps/morph_stats.py:206-231 | the row of a result under its own header is its name followed by its values |
| MorphStats.HeaderRowsAgree | neurom/apps/morph_stats.py:206-231 | when every result has the first result's header, every row exists and is the result's name followed by its values |
| MorphStats.Sanitized | neurom/apps/morph_stats.py:252-263 | ConfigError exactly when 'neurite' is set without 'neurite_type'; otherwise the keys gain 'neurite' and 'neuron', missing ones set to {}, and every given entry is kept |
| MorphStats.SanitizedIdempotent | neurom/apps/morph_stats.py:252-263 | a config with 'neurite_type' that sanitizes once sanitizes again to itself |
| MorphStats.SanitizedTwiceFails | neurom/apps/morph_stats.py:252-263 | the empty config sanitizes, but its result, which now has 'neurite' and no 'neurite_type', raises ConfigError |
| MorphStats.Config.constructor | neurom/apps/morph_stats.py:252 | a config holds the given entries |
| MorphStats.Config.Sanitize | neurom/apps/morph_stats.py:252-263 | the config is updated in place to the sanitized entries, or left unchanged and the error is raised |
| MorphStats.Item | neurom/apps/morph_stats.py:224-230 | 'name' gives the morphology's name and nothing else does; a header with a colon raises ValueError exactly when it does not split in two; a plain header is found exactly when some entry has that key; the only errors are ValueError, KeyError and TypeError |
| MorphologyChecks.TypesOf | neurom/check/morphology_checks.py:76-91 | treefun applied to each neurite, in order |
| MorphologyChecks.Count | neurom/check/morphology_checks.py:77-92 | list.count: the number of occurrences of the value |
| MorphologyChecks.HasAxon | neurom/check/morphology_checks.py:52-62 | true exactly when treefun gives axon for some neurite |
| MorphologyChecks.HasTypeCount | neurom/check/morphology_checks.py:76-92 | true exactly when at least min_number neurites have the type |
| MorphologyChecks.HasApicalDendrite | neurom/check/morphology_checks.py:65-77 | true exactly when at least min_number neurites are apical dendrites |
| MorphologyChecks.HasBasalDendrite | neurom/check/morphology_checks.py:80-92 | true exactly when at least min_number neurites are basal dendrites |
| MorphologyChecks.CountOneIsPresence | neurom/check/morphology_checks.py:52-92 | with min_number 1 the count check is presence of the type, and for axon it agrees with has_axon |
| MorphologyChecks.TypeCountMonotone | neurom/check/morphology_checks.py:65-92 | passing with a minimum passes with any smaller minimum |
| MorphologyChecks.SomaRadiusStrict | neurom/check/morphology_checks.py:169-179 | the comparison is strict: a radius of 1.5 passes thresholds 0 and 1.499 and fails 1.5 and 2.5, no radius passes its own value, and a single zero-radius soma point fails the default |
| MorphologyChecks.LowRadiiMembers | neurom/check/morphology_checks.py:158-164 | the pairs of one section are its (section id, point index) pairs whose radius is not above the threshold |
| MorphologyChecks.DedupMembers | neurom/check/morphology_checks.py:159-165 | keeping first occurrences keeps every element and repeats none |
| MorphologyChecks.DedupDistinct | neurom/check/morphology_checks.py:159-165 | a list without repeats is unchanged |
| MorphologyChecks.DedupSnoc | neurom/check/morphology_checks.py:161-165 | one more pair is appended exactly when it has not been seen |
| MorphologyChecks.HasAllNonzeroNeuriteRadii | neurom/check/morphology_checks.py:146-166 | the loop with seen_ids reports each low-radius pair once, in section and point order, and passes exactly when there is none |
| MorphologyChecks.ScanSectionRadii | neurom/check/morphology_checks.py:160-165 | the inner loop extends the deduplicated list by one section's pairs and keeps seen_ids equal to the reported pairs |
| MorphologyChecks.NeuriteRadiiReported | neurom/check/morphology_checks.py:146-166 | a pair is reported exactly when it names a point of some section with radius not above the threshold, and no pair is reported twice |
| MorphologyChecks.LowRadiiAllMembers | neurom/check/morphology_checks.py:158-164 | over all sections, the pairs are those of the low-radius points |
| MorphologyChecks.ShortSegments | neurom/check/morphology_checks.py:121-126 | the pairs of one section are its (section id, segment index) pairs whose length is not above the threshold |
| MorphologyChecks.HasAllNonzeroSegmentLengths | neurom/check/morphology_checks.py:110-128 | the loop reports the short segments of every section in order and passes exactly when there is none |
| MorphologyChecks.ShortSegmentsMembers | neurom/check/morphology_checks.py:110-128 | a pair is reported exactly when it names a segment of some section with length not above the threshold |
| MorphologyChecks.Ids | neurom/check/morphology_checks.py:141 | the section ids, in order |
| MorphologyChecks.HasAllNonzeroSectionLengths | neurom/check/morphology_checks.py:131-143 | an id is reported exactly when its section's length is not above the threshold; the status is true exactly when none is |
| MorphologyChecks.ZeroSegmentsShortSection | neurom/check/morphology_checks.py:131-143 | a section whose segments all have length 0 is reported at the default threshold |
| MorphologyChecks.SumZero | neurom/check/morphology_checks.py:141 | a sum of zero lengths is 0 |
| MorphologyChecks.IdsAndLastPoints | neurom/check/morphology_checks.py:351-362 | (id, last point) of each flagged section, IndexError when one has no points |
| MorphologyChecks.HasMultifurcation | neurom/check/morphology_checks.py:349-356 | the status is true exactly when no section is reported |
| MorphologyChecks.HasUnifurcation | neurom/check/morphology_checks.py:359-366 | the status is true exactly when no section is reported |
| MorphologyChecks.HasNoSingleChildren | neurom/check/morphology_checks.py:369-372 | the status is true exactly when no section is reported |
| MorphologyChecks.FilterEmpty | neurom/check/morphology_checks.py:349-372 | a filtered list is empty exactly when nothing passes the filter |
| MorphologyChecks.FlaggedHavePoints | neurom/check/morphology_checks.py:349-366 | when every section has points, taking last points raises nothing |
| MorphologyChecks.MultifurcationIff | neurom/check/morphology_checks.py:349-356 | when every section has points, has_multifurcation raises nothing and passes exactly when no section has more than 3 children |
| MorphologyChecks.UnifurcationAgrees | neurom/check/morphology_checks.py:359-372 | has_unifurcation and has_no_single_children agree on status and on the section ids, and pass exactly when no section has one child |
| MorphologyChecks.SingleChildExample | neurom/check/morphology_checks.py:369-372 | a section with one child is reported by its id |
| MorphologyChecks.HasNonzeroSomaRadius | neurom/check/morphology_checks.py:169-179 | passing with a non-negative threshold means the radius is not zero; failing means the radius is at most the threshold |
| IoCheck.Steps | neurom/io/check.py:42-43 | an id is reported exactly when it does not follow its predecessor by one |
| IoCheck.HasSequentialIds | neurom/io/check.py:36-44 | the ids that break the sequence, with the status true exactly when there are none |
| IoCheck.NoStepsSequential | neurom/io/check.py:36-44 | with nothing reported, every id is the first id plus its row position |
| IoCheck.SequentialIdsIff | neurom/io/check.py:36-44 | on a non-empty block the check passes exactly when the ids count up by one from the first id |
| IoCheck.HasSomaPoints | neurom/io/check.py:47-50 | true exactly when some row has the soma type |
| IoCheck.ZeroRadiusIds | neurom/io/check.py:58-59 | an id is reported exactly when some neurite row with that id has radius 0.0 |
| IoCheck.HasAllFiniteRadiusNeurites | neurom/io/check.py:53-60 | iter_row's LookupError on an empty block; otherwise the ids of the zero-radius neurite rows, with the status true exactly when there are none |
| IoCheck.SegmentCheck | neurom/io/check.py:80-88 | nothing for a root row; get_row's errors for a parent id outside the block; the (pid, id) pair exactly for a zero-length neurite segment |
| IoCheck.BadSegmentsMembers | neurom/io/check.py:75-89 | when no row raises, every parent exists and a pair is reported exactly when its row ends a zero-length neurite segment |
| IoCheck.BadSegmentsErrPersists | neurom/io/check.py:80-88 | the first error ends the whole check |
| IoCheck.CheckRow | neurom/io/check.py:81-88 | the loop body computes the check of one row |
| IoCheck.HasAllFiniteLengthSegments | neurom/io/check.py:75-89 | LookupError on an empty block, otherwise the first row error or the bad pairs over every row, with the status true exactly when there are none |
| IoCheck.ScanRows | neurom/io/check.py:80-88 | the loop accumulates the bad pairs of the rows in order and stops at the first error |
| PointTreeFunc.PathLength | neurom/point_neurite/treefunc.py:44-52 | the while loop up the parents sums the segment lengths from the node to the root |
| PointTreeFunc.UpstreamLengthNonNegative | neurom/point_neurite/treefunc.py:44-52 | with non-negative distances the path length is non-negative |
| PointTreeFunc.UpstreamLengthMonotone | neurom/point_neurite/treefunc.py:44-52 | a node below another has at least its path length |
| PointTreeFunc.ForkingPointsCons | neurom/point_neurite/treefunc.py:85 | counting forking points over a list adds one for a forking head |
| PointTreeFunc.BranchOrder | neurom/point_neurite/treefunc.py:76-86 | tree_section[-1] raises IndexError exactly for an empty section |
| PointTreeFunc.BranchOrderCountsAncestors | neurom/point_neurite/treefunc.py:76-86 | the branch order is the number of forking points strictly above the section's end node: the upstream count, less one when the end node forks |
| PointTreeFunc.BranchOrderNonNegative | neurom/point_neurite/treefunc.py:76-86 | the branch order is never negative |
| PointTreeFunc.BranchOrderFirstLevel | neurom/point_neurite/treefunc.py:76-86 | a section from the root of a bifurcating tree has branch order 1, the first level |
| PointTreeFunc.FilterSplitCount | neurom/point_neurite/treefunc.py:147-172 | filtering by one of two exclusive tests counts the sum of the two filters |
| PointTreeFunc.SectionsAreLeavesAndForks | neurom/point_neurite/treefunc.py:147-172 | below the root, n_sections is n_terminations plus the number of forking points |
| PointTreeFunc.SomeLeafBelow | neurom/point_neurite/treefunc.py:168-172 | every subtree holds a leaf |
| PointTreeFunc.SubtreeCounts | neurom/point_neurite/treefunc.py:147-172 | a subtree below the root has at least one termination and at least one section |
| PointTreeFunc.SegmentsPerNode | neurom/point_neurite/treefunc.py:154-158 | n_segments is the number of nodes, less one at the tree root |
| PointTreeFunc.MaxMinRatio | neurom/point_neurite/treefunc.py:238-241 | max/min of two positive counts is at least 1 and exactly 1 when they are equal |
| PointTreeFunc.PartitionAt | neurom/point_neurite/treefunc.py:238-241 | at a bifurcation the partition is at least 1, and 1 exactly when both children have as many sections |
| PointTreeFunc.Partition | neurom/point_neurite/treefunc.py:229-245 | one value per bifurcation point, in preorder, each at least 1 and 1 exactly for a balanced bifurcation |
| PointTreeFunc.Values | neurom/point_neurite/treefunc.py:186 | the node values along a section |
| PointTreeFunc.TrunkSectionLength | neurom/point_neurite/treefunc.py:180-190 | the length of the first section, or 0.0 when the tree has no section |
| PointTreeFunc.TrunkSinglePoint | neurom/point_neurite/treefunc.py:180-190 | a single-point tree has trunk section length 0.0 |
| PointTreeFunc.ChainWalk | neurom/point_neurite/treefunc.py:180-190 | a three-point chain is walked in order |
| PointTreeFunc.ChainSection | neurom/point_neurite/treefunc.py:180-190 | the chain is one section of all three nodes |
| PointTreeFunc.TrunkChain | neurom/point_neurite/treefunc.py:180-190 | the chain's trunk section length is the sum of its two segments |
| PointTreeFunc.UpKeys | neurom/point_neurite/treefunc.py:305-306 | the upstream walk from a node yields one value per ancestor, itself included |
| PointTreeFunc.LeafKeys | neurom/point_neurite/treefunc.py:293-294 | one upstream key list per leaf |
| PointTreeFunc.CompareTreesAsWritten | neurom/point_neurite/treefunc.py:284-319 | the trees compare false whenever their leaf counts differ; the order of any node's children does not change the result (CompareTreesChildOrder) |
| PointTreeFunc.CompareTrees | neurom/point_neurite/treefunc.py:284-319 | the nested loop decrementing nleaves computes the comparison as written |
| PointTreeFunc.UnmatchedLeaves | neurom/point_neurite/treefunc.py:299-319 | the loop over all pairs of leaves leaves the leaf count less the number of matching pairs |
| PointTreeFunc.SubtractMatches | neurom/point_neurite/treefunc.py:301-314 | the loop over the second tree's leaves subtracts the number of leaves matching one leaf of the first |
| PointTreeFunc.ZipWalk | neurom/point_neurite/treefunc.py:303-311 | the zipped walk is equal exactly when every pair of the shorter length agrees |
| PointTreeFunc.TwinLeavesShape | neurom/point_neurite/treefunc.py:293-294 | the tree with two equal leaves has leaves [0] and [1] |
| PointTreeFunc.TwinLeavesNotSelfEqual | neurom/point_neurite/treefunc.py:284-319 | a tree with two equal leaves does not compare equal to itself as written |
| PointTreeFunc.SameTrees | neurom/point_neurite/treefunc.py:284-319 | the intended comparison matches the leaves of the two trees one to one by their full upstream values, so it is false whenever leaf counts differ; child order does not matter (SameTreesChildOrder) |
| PointTreeFunc.SameTreesEquivalence | neurom/point_neurite/treefunc.py:284-319 | the intended comparison is reflexive and symmetric |
| PointTreeFunc.SameTreesOneLeaf | neurom/point_neurite/treefunc.py:284-319 | for single-leaf trees it compares the two upstream value lists |
| PointTreeFunc.LeafKeysNode | neurom/point_neurite/treefunc.py:293-294 | the leaf walks of a node are those of its children in order, each extended by the node's own value; a leaf has the single walk of itself |
| PointTreeFunc.KidsKeysPerm | neurom/point_neurite/treefunc.py:293-294 | reordering a node's children only reorders the leaf walks below it |
| PointTreeFunc.ChildOrderLeafKeys | neurom/point_neurite/treefunc.py:285-294 | reordering the children of any node keeps the multiset of leaf-to-root walks |
| PointTreeFunc.SameTreesChildOrder | neurom/point_neurite/treefunc.py:285-287 | the intended comparison is unchanged when the children of any node of either tree are reordered |
| PointTreeFunc.MatchCountPerm | neurom/point_neurite/treefunc.py:299-314 | the number of matching pairs depends only on the multisets of the two trees' leaf walks |
| PointTreeFunc.CompareTreesChildOrder | neurom/point_neurite/treefunc.py:285-319 | the comparison as written is unchanged when the children of any node of either tree are reordered, as "swapping is allowed" promises |
| PointTreeFunc.SwapTwoChildren | neurom/point_neurite/treefunc.py:285-319 | swapping the two children of a node, in either tree, changes neither comparison |

## Left out

- File access, text-to-number conversion and the h5py and morphio calls are left out. The
  readers start from the lines of a file, the unpacked HDF5 arrays or a point table. The
  Neurolucida number parser is a parameter `parse`.
- Floating-point geometry is left out. The distance between points, the angle at three points
  and numpy's statistics functions are parameters.
  - `section_tortuosity`'s division by a zero end distance (inf or nan) is modelled as no value.
  - `sibling_ratio`'s division by a zero larger radius is modelled the same way.
- Logging and warnings are left out: `_check_consistency` of the block builder only logs.
- `neurom/features/section.py` is not part of this model. Where a neurite feature maps a
  geometric section function, that function is a parameter.
- `diameter_power_relation` and `downstream_pathlength_asymmetry` are geometry. The 'length'
  variant of `partition_asymmetry` takes the latter as a parameter.
- NeuriteFeatures.SegmentPathLengthsMemo: the memo is keyed by the section's path rather than
  `section.id`. Ids in a morphology are unique, so the lookups are the same.
- `get_doc`, and the `feature(func=None)` call that returns a partial, are left out. The first
  is documentation. The second only delays the same registration.
- `extract_stats`, `extract_dataframe` and `full_config` are left out. They drive feature
  extraction over whole morphologies, pandas and multiprocessing.
- MorphStats.EvalStats works on one list of values. It leaves out `axis=0` over 2-D arrays.
- The geometric morphology checks are left out: flat neurites, jumps, fat ends, narrow starts,
  dangling branches, back-tracking and overlapping points.
- `FstNeuron.points`, `transform` and `deepcopy`, and the file-format dispatch tables, are left
  out. They copy data or call I/O.
- The isection and isegment tests on the reference trees REF_TREE and REF_TREE2 are not replayed
  node by node. Their general properties are proved over all trees instead.
- DataWrapper.NeuriteRootSectionIds and DataWrapper.SomaPoints have no contract of their own.
  The members listed for them above state their results.
- Hdf5.ReadSpec: the contract states only the error of duplicate removal. What a successful
  read yields is stated by Hdf5.ReadWithoutRemoval, and by the Hdf5 duplicate-removal and
  slicing members above.
- The Neurolucida reader takes the furcation rule and the quoting rule as parameters.
  `AfterPoints` and `PerLine` are the source as written; `AfterRows` and `AcrossLines` are the
  corrections under "## Findings".
- Morphology.HomogeneousSubtrees: models the split that `_homogeneous_subtrees` evidently
  intends, reading each section's morphio section through `to_morphio()`. As written it reads
  `section.morphio_section`, which `Section` lacks, so it raises AttributeError; that behaviour
  is Morphology.IterNeuritesAsWritten, under Findings. No warning text is modelled, only
  whether the warning is issued.
- Morphology.TypeChangeMembers: states the intended split; as written the split raises
  AttributeError before any subtree is built (Morphology.IterNeuritesAsWritten).
- Morphology.HeterogeneousIffSplit: states the intended split; as written a heterogeneous
  neurite raises AttributeError instead of giving two subtrees.
- Morphology.HeterogeneousSplits: states the intended split; as written it raises
  AttributeError.
- Morphology.SplitHeterogeneous: states the intended split; as written it raises
  AttributeError.
- Morphology.IterNeurites: the neurites of the intended subtree split; with use_subtrees and a
  heterogeneous neurite, the source as written yields a prefix of them and raises
  (Morphology.IterNeuritesAsWrittenPrefix). `Population` objects and their warning are left out.
- DataWrapper.ExtractSections: the class documentation promises "no ordering constraint", but
  that is not what the code does. A child row above its parent row raises KeyError
  (DataWrapperExamples.ChildFirstKeyError). A block whose parents all come first can still cut a
  row off from its parent: the row ends up as a one-id section of type 0 with parent -1, and
  no section lists it after its first id (DataWrapperExamples.LateForkLosesRow). Success, and a partition of
  the rows, are proved only for depth-first blocks (DataWrapper.DepthFirstExtract).
- `_map_sections` with a `section_type` other than `all`: as written it raises AttributeError
  on the checker's `type` attribute. The neurite features model the checker carrying that
  attribute.

## Findings

| source | as written | input that shows it | evidently intended | confidence | as-written member | corrected member |
|---|---|---|---|---|---|---|
| neurom/io/readers.py:117-121,148-155 | `get_children` reads `adj_list[idx]` on a defaultdict, which inserts a missing key; `get_end_points` then no longer lists that id | a block in which some row is a leaf; call get_children on the leaf's id, then get_end_points | reading children does not change the wrapper; the end points stay exactly the ids that are nobody's parent | not executed | Readers.GetChildrenHidesEndPoint | Readers.RawDataWrapper.ChildrenOf, with Readers.EndPointsAreLeaves |
| neurom/io/neurolucida.py:72,79-88 | `squash_token` is reset on every line, so a quoted string that spans lines loses its opening part | the two lines `"a` and `b"` give the single token `b"` | the two lines give the one token `"a b"`, as the comment "can be multi-line" says | not executed | NeurolucidaTokens.QuoteAcrossLines | NeurolucidaTokens.CarriedQuoteAcrossLines, with NeurolucidaTokens.CarriedJoinsLines and NeurolucidaTokens.GetCarriedTokens |
| neurom/fst/_core.py:89,129 | `_TREE_TYPES[sec.ntype]` indexes the NeuriteType members by position, so the SOMA code 1 gives apical_dendrite and AXON 2 gives basal_dendrite; this arises from reading the older `fst/_core.py` together with the newer `types.py`, where soma is 31 (see the note on code generations above) | a soma section with one axon trunk below it: the soma node is not typed soma, so the trunk is linked under it | the member whose code is the TYPE code, so that a soma section is typed soma and its trunks stay roots | not executed | FstCore.TreeTypeAsWritten, with FstCore.TreeTypeAsWrittenMisreadsSoma and FstCore.AsWrittenTrunkAttached | FstCore.TreeType, which FstCore.MakeNode and so FstCore.MakeNeuritesSpec use |
| neurom/io/neurolucida.py:181-192 | read_subsection looks for the furcation after `len(points)` items, while `_extract_section_points` also walked past marker tokens | a point row, the marker `Normal`, then a furcation of two branches: the furcation is lost | the furcation is looked for after the rows the extraction walked, so a marker changes nothing | not executed | Neurolucida.MarkerHidesFurcation | Neurolucida.SubsectionIgnoresMarker |
| neurom/features/neurite.py:261-276 | `pathlength[section.parent.id]` is read for a parent that the section_type filter left out | a basal root section with an axon child, with section_type=axon: KeyError | the parent's path offset is computed whether or not the parent is selected | not executed | NeuriteFeatures.SegmentPathLengthsMemo, with NeuriteFeatures.MixedNeuriteOrphan | NeuriteFeatures.SegmentPathLengths, with NeuriteFeatures.SegmentPathLengthsMap |
| neurom/point_neurite/treefunc.py:284-319 | `nleaves` drops once per matching pair of leaves, so two equal leaves of one tree are counted twice | a root with two equal leaf children, compared with itself: False | each leaf of one tree is matched with a distinct leaf of the other, and two matched leaves have the same walk to the root in full: the pairwise test compares only up to the shorter walk, which the docstring's "False if the trees are not identical" rules out | not executed | PointTreeFunc.TwinLeavesNotSelfEqual, with PointTreeFunc.CompareTreesAsWritten | PointTreeFunc.SameTrees, with PointTreeFunc.SameTreesEquivalence |
| neurom/core/morphology.py:218-242 | `_homogeneous_subtrees` builds each subtree from `section.morphio_section`, which `Section` does not define, so iter_neurites with use_subtrees raises AttributeError at the first heterogeneous neurite | an axon whose child section is a basal dendrite, iterated with use_subtrees=True: AttributeError and no neurite | the neurite and one subtree per change of type, here the axon and the basal dendrite, from `to_morphio()` | not executed | Morphology.IterNeuritesAsWritten, with Morphology.AxonCarryingRaises and Morphology.IterNeuritesAsWrittenRaises | Morphology.HomogeneousSubtrees, with Morphology.HeterogeneousIffSplit and Morphology.IterNeuritesAsWrittenPrefix |
