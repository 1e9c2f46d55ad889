# Cycles shader compiler and editor state, modelled in Dafny

This project models seven pieces of the upbge source (a fork of Blender). Each gets its own Dafny module and is proved against its own specification.

- **OSL shader compiler** (`intern/cycles/render/osl.cpp`), across three modules.
  - `OslDependencies` models the rule that decides which inputs of a shader node the compiler follows (`node_skip_input`). It also models the recursive dependency collection (`find_dependencies`), proved against the set of a node's ancestors.
  - `OslCompiler` models three things.
    - The fixpoint loop that emits nodes (`generate_nodes`). It emits each needed node exactly once, after every node it reads, and records the node's features in the shader's capability flags.
    - `compile_type`, and `compile` with its flag resets.
    - The OSL parameter names given to sockets (`compatible_name`).
  - `OslManager` models four things.
    - The texture and shading systems, shared by every manager and counted by their users.
    - The cache of loaded shaders, keyed by path and modification time, including the empty entry stored for a file that cannot be read.
    - Loading from a file or from bytecode.
    - The parameter filter of `osl_node`.
- **SVM compiler declarations** (`intern/cycles/render/svm.h`; `SvmCompiler`). The stack-users table with its constructors, assignment and `empty`, and the two getters.
- **Local view** (`view3d_view.c`; `LocalView`).
  - The allocator that hands out the first free bit of 16 to a local view or to local collections.
  - Setting and clearing those bits on bases and layer collections when local view is entered, left or edited.
  - The selection-pass state machine of the draw-select loop.
- **Snap cursor** (`view3d_cursor_snap.c`; `CursorSnap`).
  - The pool of three state slots: the active count, the current slot, and the link back to the slot active before.
  - The element-mask part of the cursor update.
- **Asset catalog tree view** (`asset_catalog_tree_view.cc`; `AssetCatalog`). The change-detecting catalog filter setter, asset visibility, activating tree rows, and dropping assets onto catalogs.
- **.blend block-header scanners** (`readblenentry.c`; `BlendHeaders`). The scans over the block headers of a .blend file that stop at `ENDB`: names, infos, previews, linkable groups and the size printout.
- **Hair curves** (`intern/cycles/render/hair.cpp`; `Hair`).
  - Motion-step key offsets and neighbour clamping.
  - Packing curves and segments.
  - The shader-evaluation input and output of the shadow-transparency pass.

The shared vocabulary sits in three modules:
- `ShaderGraph`: the node graph; nodes are indices, and each input links to an earlier-ranked node.
- `CyclesShader`: the `Shader` record with its capability flags, as set.
- `Wrappers`: `Option`.

## Model

| member | source | states |
|---|---|---|
| OslDependencies.SkipInput | intern/cycles/render/osl.cpp:678-705 | Internal SVM inputs are always skipped. On an ordinary node, a linked input is skipped only by a displacement shader, and only when the link comes from a bump node. On a bump node, only the Height input is skipped. |
| OslDependencies.OutputFollowsOneClosure | intern/cycles/render/osl.cpp:678-705 | Of the output node's Surface, Volume, Displacement and Normal inputs, the compiler follows exactly the one belonging to the current shader type. |
| OslDependencies.AncestorsBelow | intern/cycles/render/osl.cpp:1056-1067 | Every node reached through followed inputs is a node of the graph and ranks no higher than the start. So the recursion of find_dependencies always ends. |
| OslDependencies.AncestorsWithinClosed | intern/cycles/render/osl.cpp:1056-1067 | A set closed under followed inputs that holds a node holds every node that node depends on. |
| OslDependencies.ResolvedClosed | intern/cycles/render/osl.cpp:1056-1067 | Resolving dependencies from a closed set leaves a closed set. |
| OslDependencies.ResolvedChain | intern/cycles/render/osl.cpp:1056-1067 | Two resolutions in a row form one: their insertion logs concatenate and stay duplicate-free and in post-order. |
| OslDependencies.ResolvedInsert | intern/cycles/render/osl.cpp:1060-1065 | Inserting a node whose followed inputs are already in the set keeps the result post-ordered. |
| OslDependencies.FindDependencies | intern/cycles/render/osl.cpp:1056-1067 | An unlinked input adds nothing. Otherwise the linked node ends up in the set and is inserted only after the nodes behind its followed inputs. A node already present is not re-entered. Everything added is an ancestor of the linked node. |
| OslDependencies.FindInputDependencies | intern/cycles/render/osl.cpp:1061-1063 | The loop over a node's inputs resolves every followed input. It never adds the node itself, and adds only the node's ancestors. |
| OslDependencies.FindDependenciesExact | intern/cycles/render/osl.cpp:1056-1067 | Starting from a closed set, find_dependencies adds exactly the ancestors of the linked node. |
| OslCompiler.NodeCapsWithinType | intern/cycles/render/osl.cpp:1090-1111 | A node sets only flags that belong to the current shader type. Surface shaders set the surface flags and bump. Volume shaders set the volume spatial-varying flag. Displacement and bump set none. |
| OslCompiler.AccumulatedMeaning | intern/cycles/render/osl.cpp:1090-1111 | After a batch of nodes is emitted, a flag is set exactly when it was set before or some emitted node reports it. |
| OslCompiler.AccumulatedOnlySets | intern/cycles/render/osl.cpp:1090-1111 | generate_nodes only sets flags, never clears them, and only the flags of the type being emitted (none for bump or displacement). |
| OslCompiler.AccumulatedSplit | intern/cycles/render/osl.cpp:1069-1118 | The flags recorded by two successive passes are those of their union. |
| OslCompiler.LeastIsReady | intern/cycles/render/osl.cpp:1077-1086 | In every pass, the pending node of least rank has all its followed inputs done. So each pass that does not finish emits at least one node. |
| OslCompiler.ClosureInput | intern/cycles/render/osl.cpp:1129-1151 | The input compile_type starts from is an input of the output node, and it carries the name of the shader type's closure (Normal for bump). |
| OslCompiler.RemoveSpacesMeaning | intern/cycles/render/osl.cpp:640-645 | The stripped name has no space. Stripping twice changes nothing, and a name without spaces is kept. |
| OslCompiler.StripSpaces | intern/cycles/render/osl.cpp:643-645 | The find-and-erase loop removes exactly the spaces of the name. |
| OslCompiler.CompatibleNamesDiffer | intern/cycles/render/osl.cpp:638-676 | An input and an output of one node that share a name always get different OSL parameter names. |
| OslCompiler.Compiler.CompatibleInputName | intern/cycles/render/osl.cpp:638-656 | An input's name loses its spaces and gains "In" exactly when the node has an output of the same name. |
| OslCompiler.Compiler.CompatibleOutputName | intern/cycles/render/osl.cpp:658-676 | An output's name loses its spaces and gains "Out" exactly when the node has an input of the same name. |
| OslCompiler.Compiler.InputsDone | intern/cycles/render/osl.cpp:1079-1084 | True exactly when every followed input of the node leads to a node that is done. |
| OslCompiler.Compiler.RecordNodeFlags | intern/cycles/render/osl.cpp:1090-1111 | The current shader's flags gain exactly those the node reports for the current type. |
| OslCompiler.Compiler.EmitNode | intern/cycles/render/osl.cpp:1086-1111 | Emitting a ready node appends it to the layers once, after the nodes it reads, and adds its flags. |
| OslCompiler.Compiler.GeneratePass | intern/cycles/render/osl.cpp:1075-1116 | One pass emits only ready, not-yet-done nodes. It either finishes the set or strictly shrinks what is left. |
| OslCompiler.Compiler.GenerateNodes | intern/cycles/render/osl.cpp:1069-1118 | Every node of the set is emitted exactly once, after every node it reads, and nothing else is emitted. The flags are the old ones plus those the emitted nodes report. |
| OslCompiler.Compiler.CompileType | intern/cycles/render/osl.cpp:1120-1159 | The group holds the ancestors of the type's closure input, each once and in dependency order, followed by the output node. The flags grow by what those nodes report. |
| OslCompiler.CompiledFromBlocks | intern/cycles/render/osl.cpp:1161-1223 | Resetting the flags and then running the surface, volume and displacement blocks leaves the state that compile promises. |
| OslCompiler.Compiler.CompileSurface | intern/cycles/render/osl.cpp:1191-1205 | The surface group is built exactly when the shader is referenced and Surface is linked. The bump group is also built exactly when has_bump holds. The flags follow the emitted nodes and has_surface. |
| OslCompiler.Compiler.CompileVolume | intern/cycles/render/osl.cpp:1207-1213 | The volume group is built exactly when the shader is referenced and Volume is linked, and is cleared otherwise. |
| OslCompiler.Compiler.CompileDisplacement | intern/cycles/render/osl.cpp:1215-1221 | The displacement group is built exactly when the shader is referenced and Displacement is linked, and is cleared otherwise. |
| OslCompiler.Compiler.CompileBlocks | intern/cycles/render/osl.cpp:1191-1221 | The three blocks run in turn, each on the flags the previous one left. |
| OslCompiler.Compiler.CompileModified | intern/cycles/render/osl.cpp:1163-1222 | A modified shader's flags are reset (has_bump and has_bssrdf_bump take the computed has_bump), and then every group is built or cleared as compile promises. |
| OslCompiler.Compiler.Compile | intern/cycles/render/osl.cpp:1161-1223 | An unmodified shader is left untouched. A modified one ends in the compiled state. |
| OslManager.SharedSystems.constructor | intern/cycles/render/osl.cpp:51-58 | No shared system exists and no manager uses one. |
| OslManager.ShaderManager.constructor | intern/cycles/render/osl.cpp:64-68 | A new manager joins both shared systems, reusing them when they already have users. Its cache starts empty. |
| OslManager.ShaderManager.TextureSystemInit | intern/cycles/render/osl.cpp:219-237 | The shared texture system is created only when it has no users. The user count goes up by one. |
| OslManager.ShaderManager.TextureSystemFree | intern/cycles/render/osl.cpp:239-252 | The user count goes down by one. The system is destroyed exactly when it reaches zero, and the manager's pointer is cleared. |
| OslManager.ShaderManager.ShadingSystemInit | intern/cycles/render/osl.cpp:254-329 | The shared shading system and render services are created only when they have no users, which also empties the cache. The user count goes up by one. |
| OslManager.ShaderManager.ShadingSystemFree | intern/cycles/render/osl.cpp:331-347 | The user count goes down by one. The system and services are destroyed exactly when it reaches zero, and the pointers are cleared. |
| OslManager.ShaderManager.Reset | intern/cycles/render/osl.cpp:88-92 | The sole user gets a fresh shading system and an empty cache. Other users keep both, and the count is unchanged. |
| OslManager.ShaderManager.Release | intern/cycles/render/osl.cpp:70-74 | A destroyed manager leaves both shared systems, each with one user fewer. |
| OslManager.ShaderManager.TestLoaded | intern/cycles/render/osl.cpp:389-393 | The hash is returned exactly when the cache holds it. |
| OslManager.ShaderManager.LoadBytecode | intern/cycles/render/osl.cpp:464-482 | The info queried from the bytecode is cached under the given hash, and that hash is returned. |
| OslManager.ShaderManager.LoadFilepath | intern/cycles/render/osl.cpp:401-462 | An unknown file with a directory gives NULL and changes nothing. A hash already cached is returned without reading the file. The compiler runs once exactly when the path names a .osl source whose .oso is not cached and is missing or older than the source; otherwise it does not run. A compiled shader is keyed by the compiled .oso's time and any other .osl by the time of its .oso on disk. A .oso path or bare search-path name is keyed by the time of the path as given. An unreadable file stores an empty entry and gives NULL. |
| OslManager.UnreadableFileTriedOnce | intern/cycles/render/osl.cpp:401-462 | A second load of an unreadable file finds the empty entry of the first and returns its hash without trying again. |
| OslManager.ExtensionAsWritten | intern/cycles/render/osl.cpp:403-404 | substr(len - 4) throws for a path of fewer than four characters. Otherwise it yields the last four. |
| OslManager.ShortSearchPathNameThrows | intern/cycles/render/osl.cpp:403-404 | The bare search-path name "foo" makes the extension test throw. |
| OslManager.Extension | intern/cycles/render/osl.cpp:403-404 | The intended extension agrees with the code whenever there are four characters. A shorter path has neither .osl nor .oso. |
| OslManager.SocketTypeOf | intern/cycles/render/osl.cpp:542-592 | Closures become closure sockets. A parameter gets no socket exactly when it is not a closure and has an unknown vector semantic, or no semantic and a non-scalar or unknown base type. |
| OslManager.SocketsFromParams | intern/cycles/render/osl.cpp:535-600 | Every socket comes from a supported parameter on its own side, with that parameter's name and type. Variable-length arrays, structs and arrays never become sockets. |
| OslManager.InputsWithinCount | intern/cycles/render/osl.cpp:515-600 | The node reserves at least one value per input socket. It reserves exactly that many when every supported input has a socket type. |
| OslManager.CountNumInputs | intern/cycles/render/osl.cpp:515-526 | The first loop counts the supported non-output parameters. |
| OslManager.AddSockets | intern/cycles/render/osl.cpp:532-600 | The second loop adds the input and output sockets of the supported parameters, in order. |
| OslManager.ScriptNodeOf | intern/cycles/render/osl.cpp:486-614 | Without OSL there is no node. With a file path, the shader is loaded as LoadFilepath promises, so the node's sockets come from the entry of the resolved .oso, and the cache and compile count change as there. Bytecode is loaded only when its hash is not cached, and never compiles. A node exists exactly when a shader was loaded, and it records the bytecode hash when that is non-empty and the file path otherwise. |
| SvmCompiler.Stack.constructor | intern/cycles/render/svm.h:137-140 | A new stack has every users entry zero. |
| SvmCompiler.Stack.Copy | intern/cycles/render/svm.h:141-144 | The copy has the same users table, in storage of its own. |
| SvmCompiler.Stack.Assign | intern/cycles/render/svm.h:145-149 | Assignment copies the whole users table and changes nothing else. |
| SvmCompiler.Stack.Empty | intern/cycles/render/svm.h:151-158 | True exactly when all SVM_STACK_SIZE entries are zero. |
| SvmCompiler.CopyIsIndependent | intern/cycles/render/svm.h:141-144 | Writing to the original after copying leaves the copy as it was. |
| SvmCompiler.Compiler.ClosureMixWeightOffset | intern/cycles/render/svm.h:120-123 | Returns the stored offset and changes nothing. |
| SvmCompiler.Compiler.OutputType | intern/cycles/render/svm.h:125-128 | Returns the current shader type and changes nothing. |
| LocalView.FirstFreeBit | source/blender/editors/space_view3d/view3d_view.c:1238-1244 | The search loop returns the lowest of the 16 bits not in use, or 0 when all are used. |
| LocalView.LowestFreeBitIsLowest | source/blender/editors/space_view3d/view3d_view.c:1238-1244 | The bit found is free and no lower bit is. |
| LocalView.LowestFreeUnique | source/blender/editors/space_view3d/view3d_view.c:1238-1244 | Only one bit is both free and lowest. |
| LocalView.UsedLocalViewBitsHeld | source/blender/editors/space_view3d/view3d_view.c:1224-1236 | A bit is in use exactly when some view in local view holds it. |
| LocalView.FreeLocalViewBit | source/blender/editors/space_view3d/view3d_view.c:1215-1245 | Returns the lowest bit that no view in local view uses, or 0 when all 16 are taken. |
| LocalView.UsedCollectionBitsSkipCleared | source/blender/editors/space_view3d/view3d_view.c:1640-1651 | The view whose flag was just cleared does not count its own bit as used. |
| LocalView.FreeLocalCollectionBit | source/blender/editors/space_view3d/view3d_view.c:1571-1607 | A non-zero uuid disjoint from the bits in use is kept, and reset is left untouched. Otherwise the lowest free bit is returned and reset is set, or 0 when none is free. |
| LocalView.CollectionBitIsFree | source/blender/editors/space_view3d/view3d_view.c:1593-1606 | A non-zero result is a single bit that no other view uses. |
| LocalView.ResetUuidAgrees | source/blender/editors/space_view3d/view3d_view.c:1609-1622 | Hidden collections lose the bit and all others gain it, throughout the subtree. No other bit changes. |
| LocalView.ResetRoots | source/blender/editors/space_view3d/view3d_view.c:1624-1634 | Every root collection of a view layer is reset in the same way. |
| LocalView.ResetScenes | source/blender/editors/space_view3d/view3d_view.c:1624-1634 | Every view layer of every scene is reset in the same way. |
| LocalView.LocalCollectionsSet | source/blender/editors/space_view3d/view3d_view.c:1640-1662 | Three outcomes. With the flag off, it returns true and changes nothing. With no free bit, it returns false and leaves the flag cleared. Otherwise it stores the bit, sets the flag, and resets the collections only when a new bit was chosen. |
| LocalView.ClearBitOnAll | source/blender/editors/space_view3d/view3d_view.c:1276-1278 | Every base loses the view's bit, and no other bit changes. |
| LocalView.AddBitToEditBases | source/blender/editors/space_view3d/view3d_view.c:1279-1284 | Exactly the bases in edit mode gain the bit. |
| LocalView.AssignBitBySelection | source/blender/editors/space_view3d/view3d_view.c:1286-1297 | Outside edit mode, selected bases gain the bit and unselected bases lose it. |
| LocalView.LocalViewInit | source/blender/editors/space_view3d/view3d_view.c:1247-1310 | Returns false when the view is already in local view. Reports an error when no bit is free. Succeeds exactly when some base gained the bit. |
| LocalView.LocalViewExit | source/blender/editors/space_view3d/view3d_view.c:1378-1405 | Every base loses the view's bit, the uuid becomes 0, and the local view is dropped. |
| LocalView.LocalViewToggle | source/blender/editors/space_view3d/view3d_view.c:1448-1486 | Leaves local view when in it. Otherwise it enters it, and finishes exactly when local view was entered. |
| LocalView.LocalViewRemoveFrom | source/blender/editors/space_view3d/view3d_view.c:1509-1539 | Every selected base loses the bit and is deselected. The active base is cleared if it was among them. Cancels with an error when nothing was selected. |
| LocalView.DrawSelectLoopData.LoopPass | source/blender/editors/space_view3d/view3d_view.c:900-926 | The pre stage always continues. The post stage counts the pass and stores the hits only on the first pass. A nearest-first pass continues into the second pass only with hits. |
| LocalView.NearestSelectionRuns | source/blender/editors/space_view3d/view3d_view.c:900-926 | A nearest-first selection runs two passes when the first pass has hits and one pass otherwise. It keeps the first pass's hit count, taken modulo 2^32. |
| CursorSnap.ElemIndex | source/blender/editors/space_view3d/view3d_cursor_snap.c:722-733 | At most one of the vertex, edge and face indices is set, and only for the matching snap element. |
| CursorSnap.SnapCursor.constructor | source/blender/editors/space_view3d/view3d_cursor_snap.c:108-117 | The pool starts with no active slot and the default state of the initialiser: all five projected elements forced, plane axis 2, no previous point. |
| CursorSnap.SnapCursor.StateGet | source/blender/editors/space_view3d/view3d_cursor_snap.c:840-846 | With no active slot it is the default state. Otherwise it is the current slot. |
| CursorSnap.SnapCursor.Free | source/blender/editors/space_view3d/view3d_cursor_snap.c:872-889 | Every slot is marked inactive. The paint-cursor handle is dropped when a window manager exists, and the snap context is always dropped. The active count, the current slot and every other field keep their values. |
| CursorSnap.SnapCursor.DefaultSet | source/blender/editors/space_view3d/view3d_cursor_snap.c:891-894 | Only the default state changes. |
| CursorSnap.SnapCursor.Active | source/blender/editors/space_view3d/view3d_cursor_snap.c:896-918 | Takes the first inactive of the three slots, copies the default into it, links it to the slot active before, and makes it current, so the count grows by one. With no slot free it returns none and changes nothing. The count always equals the number of active slots. |
| CursorSnap.SnapCursor.Deactive | source/blender/editors/space_view3d/view3d_cursor_snap.c:920-941 | Does nothing when no slot is active or the slot is inactive. Otherwise it deactivates the slot, lowers the count and restores the slot active before it, leaving the other slots alone. At count zero the pool is freed: every slot is marked inactive with its state and link kept. |
| CursorSnap.OutOfOrderDeactivation | source/blender/editors/space_view3d/view3d_cursor_snap.c:896-941 | Activate two slots, then deactivate the first. One slot is still counted active, yet the current slot is the inactive one, because the link back holds a single index and is not a stack. |
| CursorSnap.SnapCursor.PrevpointSet | source/blender/editors/space_view3d/view3d_cursor_snap.c:943-953 | A point is copied into the slot's own storage and becomes the previous point. No point clears it. |
| CursorSnap.SnapCursor.SaveXY | source/blender/editors/space_view3d/view3d_cursor_snap.c:473-505 | After the position is saved, that same position no longer counts as a change. |
| CursorSnap.SnapCursor.Update | source/blender/editors/space_view3d/view3d_cursor_snap.c:556-744 | The snap context is made to exist. The hidden elements and the snap data are those UpdatedData and HiddenElements give for the state, and the position is saved. |
| CursorSnap.HiddenElements | source/blender/editors/space_view3d/view3d_cursor_snap.c:602-608 | FACE is hidden exactly when a plane is drawn and the elements looked for lack it. The forced elements win over the scene's snap mode. |
| CursorSnap.UpdatedData | source/blender/editors/space_view3d/view3d_cursor_snap.c:602-744 | The data is enabled, and no hidden element is in its result. Edge-perpendicular is dropped without a previous point. At most one element index is kept, and only for a non-empty result. |
| CursorSnap.SnapCursor.DataGet | source/blender/editors/space_view3d/view3d_cursor_snap.c:955-977 | Updates only with a context, an active slot and a changed event position. Otherwise nothing changes. The update works on the given state, or else the current slot's, and leaves exactly the snap data UpdatedData gives for it. It returns the snap data. |
| CursorSnap.SnapCursor.Exit | source/blender/editors/space_view3d/view3d_cursor_snap.c:986-989 | Frees the slots but leaves the active count, so a count left non-zero no longer matches the slots. |
| AssetCatalog.FilterSettings.Set | source/blender/editors/space_file/asset_catalog_tree_view.cc:441-462 | Returns true exactly when the visibility changed, or when it is from-catalog and the id changed. The id is stored only in from-catalog mode. |
| AssetCatalog.SetTwice | source/blender/editors/space_file/asset_catalog_tree_view.cc:441-462 | Setting the same filter twice reports no change the second time. |
| AssetCatalog.FilterSettings.EnsureUpdated | source/blender/editors/space_file/asset_catalog_tree_view.cc:464-477 | The catalog filter is rebuilt only in from-catalog mode, and it then matches the stored id. |
| AssetCatalog.DropOntoActiveRow | source/blender/editors/space_file/asset_catalog_tree_view.cc:479-498 | Activate a catalog or Unassigned row, refresh the filter, and drop an asset list onto that row. Every dropped asset is then visible under the three visibility rules: all catalogs shows everything, without-catalog shows the nil id, from-catalog shows what the filter contains. |
| AssetCatalog.TreeView.OnActivate | source/blender/editors/space_file/asset_catalog_tree_view.cc:169-218 | Activating a row sets the matching visibility, and that row's catalog becomes the active one. |
| AssetCatalog.HasDroppableItem | source/blender/editors/space_file/asset_catalog_tree_view.cc:273-284 | True exactly when some dragged asset is not external. |
| AssetCatalog.CanDrop | source/blender/editors/space_file/asset_catalog_tree_view.cc:286-292 | Also requires the drag to be an asset list. |
| AssetCatalog.DropIntoCatalog | source/blender/editors/space_file/asset_catalog_tree_view.cc:310-335 | No asset list gives false and changes no asset. Otherwise every non-external asset gets the catalog's id and simple name. |
| AssetCatalog.OnDrop | source/blender/editors/space_file/asset_catalog_tree_view.cc:337-343 | A drop on a catalog row assigns its id. A drop on the Unassigned row assigns the nil id. |
| BlendHeaders.EndIndex | source/blender/blenloader/intern/readblenentry.c:108-111 | The position of the first ENDB block, or the end of the file: no ENDB comes before it. |
| BlendHeaders.Tag | source/blender/blenloader/intern/readblenentry.c:117-125 | Four characters: the code's bytes, most significant first, with zero bytes shown as spaces. |
| BlendHeaders.TagRoundTrip | source/blender/blenloader/intern/readblenentry.c:117-120 | For a code without zero bytes, reading the tag's four bytes back, most significant first, gives the code modulo 2^32. |
| BlendHeaders.PrintSizes | source/blender/blenloader/intern/readblenentry.c:102-135 | One row per block before ENDB, with its tag, type, count and size. |
| BlendHeaders.ListedBlocksExactly | source/blender/blenloader/intern/readblenentry.c:156-163 | A block is listed exactly when it lies before ENDB, has the requested code, and is an asset when only assets are wanted. |
| BlendHeaders.GetDatablockNames | source/blender/blenloader/intern/readblenentry.c:147-174 | The names of the listed blocks in reverse file order, with the total equal to their count. |
| BlendHeaders.ListedSkipsData | source/blender/blenloader/intern/readblenentry.c:208-213 | Skipping the DATA blocks after an asset's block loses no listed block. |
| BlendHeaders.GetDatablockInfo | source/blender/blenloader/intern/readblenentry.c:187-230 | For any code but DATA: the same blocks with their asset data, in reverse order. For every code, the total equals the number of infos, and each info is that of a listed block before ENDB. When DATA is asked for, the DATA blocks skipped after asset data are left out of that list. ENDB is checked first. |
| BlendHeaders.ReadPreviewRects | source/blender/blenloader/intern/readblenentry.c:246-272 | A rect is read for an icon size only when rect, width and height are all non-zero. Otherwise the rect is cleared and both sizes are 0. |
| BlendHeaders.FindNamed | source/blender/blenloader/intern/readblenentry.c:283-300 | The first block with the requested code and name that has no ENDB before it. None when every such block comes after an ENDB. |
| BlendHeaders.FindPreview | source/blender/blenloader/intern/readblenentry.c:300-320 | The first PreviewImage DATA block after the match, with only other DATA blocks in between. None when a non-DATA block comes before every preview. |
| BlendHeaders.GetPreviewForId | source/blender/blenloader/intern/readblenentry.c:283-320 | A preview is returned exactly when the named block has one. It is the preview read from that PreviewImage block. Each stored rect keeps the payload's width and height and is read from the next block after the rects before it. An icon size with no rect gets no block and sizes 0. |
| BlendHeaders.GetPreviews | source/blender/blenloader/intern/readblenentry.c:331-388 | One entry per block of the requested code before ENDB, with the total equal to that count. Only blocks whose ID code is preview-capable are counted. |
| BlendHeaders.FirstOccurrencesMembers | source/blender/blenloader/intern/readblenentry.c:397-422 | An element is kept exactly when it occurs in the input. |
| BlendHeaders.FirstOccurrencesDistinct | source/blender/blenloader/intern/readblenentry.c:397-422 | No element is kept twice. |
| BlendHeaders.ShortCode | source/blender/blenloader/intern/readblenentry.c:408-410 | The 32-bit block code, as the `short` the ID-type functions take: a 16-bit signed value equal to the code modulo 2^16. |
| BlendHeaders.LinkableNamesExactly | source/blender/blenloader/intern/readblenentry.c:397-422 | A type name is collected exactly when some block, its code cut to a short, has a valid and linkable ID type of that name. |
| BlendHeaders.GetLinkableGroups | source/blender/blenloader/intern/readblenentry.c:397-422 | The set keyed by type name keeps each name's first appearance before ENDB. Each is prepended, so the first seen comes last. |
| BlendHeaders.ReverseAt | source/blender/blenloader/intern/readblenentry.c:412-413 | Prepending reverses the order: element k of the list is element n - 1 - k in file order. |
| BlendHeaders.LinkableGroupsExactly | source/blender/blenloader/intern/readblenentry.c:397-422 | A name is listed exactly when a block before ENDB, its code cut to a short, has a valid and linkable ID type of that name. No name is listed twice. |
| Hair.KeySourceOf | intern/cycles/render/hair.cpp:196-216 | The centre step reads the curve keys. Every other step reads the motion-key array, at the stored step (one less after the centre) times the key count, plus the key. |
| Hair.StepKeyRoundTrip | intern/cycles/render/hair.cpp:196-216 | Every motion-key slot belongs to exactly one non-centre step and key. |
| Hair.StepPositionRoundTrip | intern/cycles/render/hair.cpp:196-216 | From a slot, the step and key are recovered. |
| Hair.KeyAtStepMeaning | intern/cycles/render/hair.cpp:196-216 | The key at a step reads its position from the source that step names, and its radius always from the curve radii. |
| Hair.StepOffset | intern/cycles/render/hair.cpp:196-216 | Neighbouring non-centre steps are one key-count apart in the motion-key array. |
| Hair.ClampKey | intern/cycles/render/hair.cpp:195 | A key index is clamped to the curve's last key. |
| Hair.KeysForStep | intern/cycles/render/hair.cpp:184-226 | The two keys at k0 and at the given k1 clamped to the last key, each read at the step. |
| Hair.CardinalKeysForStep | intern/cycles/render/hair.cpp:228-285 | The keys at the four given indices k0, k1, k2 and k3, each read at the step. Only k3 is clamped to the last key. |
| Hair.BoundsKeys | intern/cycles/render/hair.cpp:39-42 | The four neighbour indices all lie within the curve's keys. |
| Hair.CurveOf | intern/cycles/render/hair.cpp:488 | A curve's keys run from its first key to the next curve's first key. |
| Hair.FirstKeysIncrease | intern/cycles/render/hair.cpp:488 | First keys increase along the curves. |
| Hair.CurveWithinKeys | intern/cycles/render/hair.cpp:488 | Every curve's keys lie within the key array. |
| Hair.PrimitiveTypeOf | intern/cycles/render/hair.cpp:514-520 | The two-by-two table of motion blur against ribbon or thick curves. |
| Hair.Hair.CurveShaderOf | intern/cycles/render/hair.cpp:496-499 | A shader index past the used shaders falls back to the default surface. |
| Hair.Hair.PackKeys | intern/cycles/render/hair.cpp:479-486 | Every key is packed with its position and radius. |
| Hair.Hair.PackCurveRecord | intern/cycles/render/hair.cpp:494-504 | The record holds the curve's shader, its first key offset by the key offset, its key count, and the primitive type. |
| Hair.Hair.PackSegments | intern/cycles/render/hair.cpp:506-509 | One segment record per segment of the curve, numbered in order. |
| Hair.Hair.PackCurveSegments | intern/cycles/render/hair.cpp:506-510 | The curve's segments are written at the running index, which advances by the curve's segment count. |
| Hair.Hair.PackCurves | intern/cycles/render/hair.cpp:472-512 | Every curve is packed, and the segments written total the sum of all curves' segments. |
| Hair.SegmentsBeforeCount | intern/cycles/render/hair.cpp:491-510 | The running index before a curve is the sum of the segments of the curves before it. |
| Hair.TotalSegmentsIsSum | intern/cycles/render/hair.cpp:491-510 | The total is that sum over all curves. |
| Hair.SegmentSlotsDistinct | intern/cycles/render/hair.cpp:491-510 | No two segments of any curves share a slot. |
| Hair.Hair.InputFor | intern/cycles/render/hair.cpp:535-541 | The last entry of each curve has u = 1 and the others u = 0. |
| Hair.Hair.FillCurveInputs | intern/cycles/render/hair.cpp:533-544 | A curve writes one entry per key, that is its segment count plus one. |
| Hair.FillShaderInput | intern/cycles/render/hair.cpp:523-546 | Writes every key's entry and returns the total. |
| Hair.KeysBeforeCount | intern/cycles/render/hair.cpp:523-546 | The running index before a curve is the number of keys before it. |
| Hair.KeySlotsDistinct | intern/cycles/render/hair.cpp:523-546 | No two entries share a slot. |
| Hair.ReadShaderOutput | intern/cycles/render/hair.cpp:549-565 | Every value is copied. The result is fully opaque exactly when no value is positive. |
| Hair.Hair.NeedShadowTransparency | intern/cycles/render/hair.cpp:567-577 | True exactly when some used shader has a transparent surface and uses transparent shadows. |
| Hair.Hair.UpdateShadowTransparency | intern/cycles/render/hair.cpp:579-630 | The update as intended, with the opacity flag reaching the caller. The attribute exists exactly when some shader casts transparent shadows and some evaluated value is positive. It then holds the evaluated values. The result reports a change exactly when an attribute existed before or exists now. |
| Hair.Hair.UpdateShadowTransparencyAsWritten | intern/cycles/render/hair.cpp:579-630 | The update as written, where the reader sets a bound copy of the flag. The attribute exists exactly when some shader casts transparent shadows, whatever the values. It then holds the evaluated values. The result reports a change exactly when an attribute existed before or exists now. |
| Hair.OpaqueHairKeepsAttribute | intern/cycles/render/hair.cpp:617-627 | Take hair with a transparent-shadow shader whose keys all evaluate to 0. The code as written keeps the all-opaque attribute and reports a change. The intended update removes it and reports only whether it existed. |

Some definitions have no row of their own. Each is what the rows above state properties of:
- `OslCompiler.NodeCaps` and `OslCompiler.TypeCaps` (intern/cycles/render/osl.cpp:1090-1111) are the flags one emitted node sets and the flags a shader type can record. `NodeCapsWithinType` and `AccumulatedMeaning` state their properties.
- `OslManager.InfoOf` (intern/cycles/render/osl.cpp:464-482) is the cache entry built from bytecode. `LoadBytecode` and `LoadFilepath` state where it is stored.
- `OslManager.NeedsCompile` (intern/cycles/render/osl.cpp:407-424) is the condition under which a .osl source is compiled. `LoadFilepath` states it.
- `OslManager.ShaderManager.FileLoaded` (intern/cycles/render/osl.cpp:401-462) is what one shader_load_filepath call does to the cache and the compile count. `LoadFilepath` and `ScriptNodeOf` promise it.
- `CursorSnap.SnapCursor.StateFor` (source/blender/editors/space_view3d/view3d_cursor_snap.c:969-971) is the state an update works on. `DataGet` states it.
- `LocalView.ResetUuid` (source/blender/editors/space_view3d/view3d_view.c:1609-1622) is the recursive bit reset. `ResetUuidAgrees` states it.
- `CursorSnap.SnapCursor.EventStateHasChanged` (source/blender/editors/space_view3d/view3d_cursor_snap.c:473-497) is the event-change test. The rows for the methods that save the event state and use it state it.
- `AssetCatalog.FilterSettings.IsVisible` (source/blender/editors/space_file/asset_catalog_tree_view.cc:479-498) and `AssetCatalog.TreeView.IsActiveCatalog` are the visibility and active-row tests. The activation and drop rows state them.
- `Hair.Hair.CurveRecord` (intern/cycles/render/hair.cpp:494-504) is the packed record of one curve. `PackCurveRecord` and `PackCurves` state it.
- `BlendHeaders.PreviewReadFrom` (source/blender/blenloader/intern/readblenentry.c:246-272) is the relation between a preview and the PreviewImage it is read from. `ReadPreviewRects` and `GetPreviewForId` state it.

generate_nodes (intern/cycles/render/osl.cpp:1069-1118) makes no progress on a node set that is not closed under the inputs it follows, and then loops forever. `OslCompiler.Compiler.GenerateNodes` therefore requires that closure.

## Left out

- The OSL library calls are not modelled. These are `ss->Parameter`, `Shader`, `ConnectShaders`, `ShaderGroupBegin/End`, `LoadMemoryCompiledShader`, optimisation and the external compiler. Emitting a node is modelled as appending it to a log of layers. The parameters of a loaded shader come from a `query` function parameter standing in for OSLQuery. osl_compile's result is not modelled; the file system after it runs is a parameter.
- MD5 and hash strings: shader_filepath_hash is a key that keeps the path and modification time, so it is injective by construction. The file system (times and texts) is a parameter. Paths use '/' as the only separator.
- Mutexes: the shared counters are modelled sequentially.
- osl_node's default socket values, and the float parameters behind them, are not modelled. Neither is the per-node `add` that sets the attribute and integrator dependency flags.
- compile: the graph is taken as already finalized. has_surface_raytrace is not reset, as in the code. Progress and status messages are not modelled.
- OslManager.ShaderManager.ShadingSystemInit: it promises only that the fresh system's number is at least the old count, not its exact value.
- SvmCompiler: the stack functions that svm.h only declares are not modelled. SVM_STACK_SIZE is 255; the header defining it is not part of this model.
- SvmCompiler.Compiler: only the two fields its getters read are modelled.
- LocalView: layer-collection trees are values, rebuilt rather than updated in place. Smooth view, camera and matrix math, and the object-index search of the selection loop are left out.
- CursorSnap:
  - The snap projection is a function parameter. Float snap math, drawing, the keymap and the context are left out.
  - The snap context is a flag: an update makes it exist and freeing drops it. Re-creating it for a different scene is left out.
  - USE_SNAP_DETECT_FROM_KEYMAP_HACK is not defined in the file, so the modifier-key check is compiled out.
- AssetCatalog:
  - The catalog service's filter is taken to contain the catalog itself. The catalogs below it are not modelled.
  - WM_drag_asset_list_get is not part of this model.
  - Building rows, context menus and tooltips is left out.
- BlendHeaders:
  - A .blend file is a sequence of block headers with their payloads. File opening, reading structs and memfile undo are left out.
  - sizeof(BHead) is taken as 24, and MAKE_ID as little-endian.
- BlendHeaders.GetPreviewForId and BlendHeaders.GetPreviews: they require RectsFollow, i.e. that the blocks after a PreviewImage hold its stored rects as DATA blocks. The code reads whatever blocks follow as rects; the requires states the file format it relies on.
- BlendHeaders.GetPreviews: it states the number of previews. It does not state their contents, which ReadPreviewRects states for each one.
- Hair:
  - motion_keys, cardinal_motion_keys, curvebounds, apply_transform and compute_bounds are float math and left out.
  - `__int_as_float` is kept as the integer it encodes.
  - hair.h is not part of this model; the curve record it declares is rebuilt from get_curve's use.
- Hair.KeysForStep: requires at least one key and k0 within the curve, which the callers of keys_for_step guarantee.
- Hair.CardinalKeysForStep: requires k0, k1 and k2 within the curve, which the callers of cardinal_keys_for_step guarantee; only k3 is clamped in the code.
- BlendHeaders.GetDatablockInfo: when DATA blocks are asked for, it states only that each info comes from a listed block, not which DATA blocks the skip after asset data leaves out.
- BlendHeaders.GetLinkableGroups: the set in the code is keyed by the address of each type's static name; the model keys it by the name, taking distinct ID types to have distinct names.
- The UI, GPU, drawing and game-engine parts of these files are left out.

## Findings

| source | as written | input that shows it | evidently intended | confidence | as-written member | corrected member |
|---|---|---|---|---|---|---|
| intern/cycles/render/hair.cpp:617-627 | `is_fully_opaque` is passed to read_shader_output through function_bind (std::bind), which stores a copy; the caller's flag stays false, so the attribute is never removed after evaluation | hair with a transparent-shadow shader whose every key evaluates to 0 | remove the all-opaque attribute and return whether it existed | not executed | Hair.OpaqueHairKeepsAttribute | Hair.Hair.UpdateShadowTransparency |
| intern/cycles/render/osl.cpp:403-404 | `filepath.substr(len - 4)` with unsigned `len - 4` throws std::out_of_range for a path shorter than four characters | the bare search-path shader name "foo" | a short name has no extension and is looked up in the shader search path | not executed | OslManager.ShortSearchPathNameThrows | OslManager.Extension |
