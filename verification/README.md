# VisualScriptingTool graph engine in Dafny

This project models the graph engine of VisualScriptingTool, a node-based scripting tool for Unity. A graph is a table of nodes keyed by integer id. User nodes take ascending ids from 2 upward. The default constants attached automatically to unconnected inputs take descending ids from -3 downward. Every edge is a link that names the id of the node it reads from.

The model covers:

- the value-type tags and their capability table;
- the type and arity rule of every node kind: math, vector math, quaternion, operations, value, curve, gradient, random, Perlin, Spring, Delta, Dozer and Timer;
- the node table: creation, removal with link scrubbing, typed getters and setters, and the reuse of input and output nodes;
- type propagation, cycle-protected and light;
- dead-end discovery, per-sink validation and evaluator compilation, with its frame-keyed output cache;
- the editor's graph rebuild, node creation and node removal;
- default-value injection and the text payloads of default constants;
- the `#` and `|` delimited text serialiser;
- the duplicator;
- the host-side external value lists and arrays;
- the integer side of Perlin noise;
- the index arithmetic of the two mesh samples.

Floats are opaque text tokens. Positions are whole pixels. C# `int` arithmetic is written out with 32-bit wrap-around where the source relies on it. Wherever the source enumerates a `Dictionary` or `HashSet`, the enumeration order is a parameter, and it must list every key exactly once.

Modules follow the source files:

- `ValueTypes`, `NodeCollector`, `Links`, `NodeBase`, `FrameCache`;
- the per-family node rules: `MathNodes`, `VectorMathNodes`, `QuaternionNodes`, `OperationNodes`, `OtherNodes`, `ValueNodes`, `PerlinNodes`;
- `Nodes`, which is the closed sum of all node kinds;
- `Graph`, `Typing`, `Processors`, `Defaults`, `Editor`, `Duplication`;
- `Serializer`, with its codecs `Text`, `FieldCodec`, `CurveCodec`, `NodeFields`;
- `Externals`, `HostInput`, `Int32Math`, `Perlin`;
- `GridMesh`, `ParticleMesh`, with their shared arithmetic in `MeshArith`;
- the `Wrappers` `Result` and `Option` types.

## Model

| member | source | states |
|---|---|---|
| ValueTypes.Ordinal | VisualScriptingTool/Core/NodeCollector.cs:119-137 | The enum has sixteen tags, so every tag's integer value indexes a row of the sixteen-row capability table. |
| ValueTypes.Config | VisualScriptingTool/Core/ValueTypeConfig.cs:8-26 | The table is aligned with the enum: the row read at a tag's integer value describes that same tag. |
| ValueTypes.IsVector | VisualScriptingTool/Core/ValueTypeConfig.cs:10-25 | The `IsVector` column is true exactly for AutoVector, Vector2, Vector3, Vector4 and Color. |
| ValueTypes.IsValue | VisualScriptingTool/Core/ValueTypeConfig.cs:10-25 | The `IsValue` column is true exactly for the vector tags plus AutoValue, Float and Int, so every vector tag is a value tag. |
| ValueTypes.IsValueExceptInt | VisualScriptingTool/Core/ValueTypeConfig.cs:10-25 | The `IsValueExceptInt` column agrees with `IsValue` everywhere except on Int, where it is false. |
| Links.SetValueRequired | VisualScriptingTool/Core/Link.cs:17-26 | Reading `ValueRequired` back gives the value just set, while `NoDefaults`, every other bit of the settings word and the rest of the link stay as they were. |
| Links.SetNoDefaults | VisualScriptingTool/Core/Link.cs:27-36 | Reading `NoDefaults` back gives the value just set, while `ValueRequired`, every other bit of the settings word and the rest of the link stay as they were. |
| Links.SettersCommute | VisualScriptingTool/Core/Link.cs:17-36 | The two flag setters touch disjoint bits, so applying them in either order gives the same link. |
| Links.Initialize | VisualScriptingTool/Core/Link.cs:43-48 | `Initialize` keeps the link's connection and its remembered default node; only the declared type and settings are replaced. |
| Links.InitializeDefaults | VisualScriptingTool/Core/Link.cs:43-48 | Without explicit settings a link ends up with `ValueRequired` set and `NoDefaults` clear. |
| Links.FreshLinkState | VisualScriptingTool/Core/Link.cs:8-41 | A new link is unconnected (`NodeId` is -1, so `IsConnected` is false), remembers no default node and has no flag set. |
| NodeCollector.ValidateTypes | VisualScriptingTool/Core/NodeCollector.cs:76-83 | A link declared AutoValue accepts exactly the value tags, one declared AutoVector exactly the vector tags, and any other declared tag accepts only itself. |
| NodeCollector.ValidateTypesOrder | VisualScriptingTool/Core/NodeCollector.cs:76-83 | Every tag accepts itself; whatever AutoVector accepts AutoValue accepts too; and between concrete tags acceptance is symmetric. |
| NodeCollector.GetValueType | VisualScriptingTool/Core/NodeCollector.cs:85-106 | A runtime type maps to `Error` exactly when it is not one of the nine known host types (float, the vectors, Color, int, bool, the two texture types). |
| NodeCollector.GetValueTypeInvertsTable | VisualScriptingTool/Core/NodeCollector.cs:85-106 | `GetValueType` inverts the runtime-type column of the capability table for every row except Mesh, which it does not recognise. |
| NodeCollector.DefaultKindFor | VisualScriptingTool/Core/NodeCollector.cs:56-68 | Exactly the seven payload tags and the two generic tags have a default node; each payload tag has its own, AutoValue borrows the Float one and AutoVector the Vector3 one. |
| NodeCollector.DefaultKindValidates | VisualScriptingTool/Core/NodeCollector.cs:56-83 | The constant of the default node chosen for a declared type is always accepted by a link of that type. |
| NodeCollector.IOTypeFor | VisualScriptingTool/Core/NodeCollector.cs:42-54 | Only the seven payload tags have an input/output value node, and that node carries the tag itself. |
| NodeBase.InitLinks | VisualScriptingTool/Core/Node.cs:39-57 | Resizing the input array gives exactly `count` links: the surviving prefix is kept link for link and every new slot is a fresh link. |
| NodeBase.InitLinksIdempotent | VisualScriptingTool/Core/Node.cs:39-57 | Resizing again to the same count changes nothing (the early return on an array of the right length). |
| NodeBase.Declared | VisualScriptingTool/Core/Link.cs:43-48 | A freshly initialised input slot is unconnected, remembers no default node, and carries the declared type and settings. |
| NodeBase.Reshape | VisualScriptingTool/Core/Node.cs:39-57 | The usual `OnValidate` shape yields one input per declared type, each with that type and the given settings, keeping the connection and remembered default of every surviving input and leaving new ones unconnected. |
| NodeBase.ReshapeIdempotent | VisualScriptingTool/Core/Node.cs:39-57 | Validating a node a second time with the same declaration leaves its inputs as the first validation left them. |
| NodeBase.AccessorFor | VisualScriptingTool/Core/NodeProcessor.cs:11-45 | A processor has a typed accessor exactly for the seven payload types and the two texture types. |
| NodeBase.NodeHeight | VisualScriptingTool/Core/Node.cs:59-65 | A node is taller than its number of inputs and than its number of drawn properties: the title row comes on top of one row each. |
| NodeBase.NodeHeightRows | VisualScriptingTool/Core/Node.cs:59-65 | A node with no inputs and no drawn properties is one row tall, and each further input or drawn property adds exactly one row. |
| NodeBase.InputSame | VisualScriptingTool/Core/Node.cs:104-110 | The common type when all given types agree, and `Error` as soon as one of them differs from the first. |
| NodeBase.InputExact | VisualScriptingTool/Core/Node.cs:111-115 | Anything but `Error` comes back only when the input is exactly the wanted type, and then it is that type. |
| NodeBase.InputVector | VisualScriptingTool/Core/Node.cs:120-123 | A vector type passes through unchanged and every other type becomes `Error`. |
| NodeBase.InputValue | VisualScriptingTool/Core/Node.cs:124-127 | A value type passes through unchanged and every other type becomes `Error`. |
| NodeBase.InputVectorFloat | VisualScriptingTool/Core/Node.cs:128-138 | The pair is accepted exactly when it is two equal vectors, a vector with a float (either order) or two floats; the result is one of the operands and is a vector whenever an operand is. |
| NodeBase.InputVectorFloatInt | VisualScriptingTool/Core/Node.cs:139-150 | The pair is accepted exactly when it is two equal vectors or a vector with a float or int (either order); the result is always the vector operand, so two scalars are rejected. |
| NodeBase.InputFloatInt | VisualScriptingTool/Core/Node.cs:151-159 | The pair is accepted exactly when both are float or int; the result is Int exactly when both are Int, and Float when either is Float. |
| NodeBase.PairHelpersSymmetric | VisualScriptingTool/Core/Node.cs:128-159 | The three pairwise helpers give the same answer whichever operand comes first. |
| FrameCache.Wrapped | VisualScriptingTool/Core/NodeProcessor.cs:49-52 | Right after wrapping, the shared stamp is below every frame that gets evaluated and nothing is cached. |
| FrameCache.Read | VisualScriptingTool/Core/NodeProcessor.cs:52-134 | A call in the stamped frame returns the kind's cached value and changes nothing; a call in any other frame returns the raw value, caches it and stamps the frame; the other kinds' cached values never change. |
| FrameCache.FirstReadComputes | VisualScriptingTool/Core/NodeProcessor.cs:50-61 | The first call after wrapping, in any evaluated frame, runs the raw accessor. |
| FrameCache.SameFrameReturnsCached | VisualScriptingTool/Core/NodeProcessor.cs:56-61 | A second call of an accessor in the same frame returns the first call's value, whatever the raw accessor would now return. |
| FrameCache.LaterFrameRecomputes | VisualScriptingTool/Core/NodeProcessor.cs:56-61 | A call in a later frame runs the raw accessor again. |
| FrameCache.SecondKindIsStale | VisualScriptingTool/Core/NodeProcessor.cs:50-70 | Because all kinds share one stamp, once one accessor kind ran in a frame a different kind called in that frame returns its stale cache (the field default right after wrapping) instead of computing. |
| OperationNodes.LerpType | VisualScriptingTool/Nodes/Operations.cs:30-35 | Lerp is well typed exactly when A and B have one value type and t is a float, and then it yields that type. |
| OperationNodes.ConditionOrdinal | VisualScriptingTool/Nodes/Operations.cs:92-97 | Each comparison has the serialised position of its enum member. |
| OperationNodes.ConditionType | VisualScriptingTool/Nodes/Operations.cs:69-74 | A condition is well typed exactly when both inputs are floats, and then it yields a bool. |
| OperationNodes.IfType | VisualScriptingTool/Nodes/Operations.cs:119-123 | If is well typed exactly when the condition is a bool and both branches share one value type, which is the result. |
| OperationNodes.BoolOrdinal | VisualScriptingTool/Nodes/Operations.cs:209-217 | Each boolean operation has the serialised position of its enum member. |
| OperationNodes.BoolOperatorLinks | VisualScriptingTool/Nodes/Operations.cs:164-176 | Validation makes input B required exactly for the two-input operations and changes nothing else about any input. |
| OperationNodes.BoolOperatorType | VisualScriptingTool/Nodes/Operations.cs:156-161 | The operator is well typed exactly when A is a bool and B is a bool or unconnected; the result is a bool. |
| OperationNodes.BoolEvaluate | VisualScriptingTool/Nodes/Operations.cs:178-207 | Only the trigger updates the stored last value, it stores A, and it fires exactly when A differs from what was stored. |
| OperationNodes.BoolConnectives | VisualScriptingTool/Nodes/Operations.cs:194-205 | Xor is the negation of Equal, and inverting Or of A and B equals And of their inversions. |
| OperationNodes.SkippedBIsIrrelevant | VisualScriptingTool/Nodes/Operations.cs:194-205 | For every operation and every A, input B is not called exactly when its value cannot change the output: `||` skips it once A is true, `&&` once A is false. |
| OperationNodes.TriggerFiresOncePerChange | VisualScriptingTool/Nodes/Operations.cs:185-192 | The trigger fires on a change of A and does not fire again on the next evaluation while A is unchanged, whatever B is. |
| OperationNodes.VecModifyCount | VisualScriptingTool/Nodes/Operations.cs:243-276 | The node has the vector input plus one input per component of a concrete vector type, and only the vector input otherwise. |
| OperationNodes.VecModifyLinks | VisualScriptingTool/Nodes/Operations.cs:243-276 | The resize keeps the vector input as it was, keeps the connection of every surviving input, leaves new inputs unconnected, and makes every component input a float that never receives a default. |
| OperationNodes.VecModifyLinksIdempotent | VisualScriptingTool/Nodes/Operations.cs:243-276 | Resizing a second time for the same vector type leaves the inputs as the first resize left them. |
| OperationNodes.FloatOrNoneFrom | VisualScriptingTool/Nodes/Operations.cs:279-280 | The scan accepts exactly when every input from the given index on is a float or unconnected. |
| OperationNodes.VecModifyType | VisualScriptingTool/Nodes/Operations.cs:243-283 | The node is well typed exactly when input 0 is a vector and every component input is a float or unconnected; it yields the vector's type. |
| OperationNodes.ShapeOrdinal | VisualScriptingTool/Nodes/Operations.cs:468-474 | Each constructor shape has the serialised position of its enum member. |
| OperationNodes.ShapeType | VisualScriptingTool/Nodes/Operations.cs:404-415 | Every shape builds a concrete vector type. |
| OperationNodes.VecConstrLinks | VisualScriptingTool/Nodes/Operations.cs:364-398 | Validation gives one float input per component of the shape, none required, keeping surviving connections and leaving new inputs unconnected. |
| OperationNodes.VecConstrType | VisualScriptingTool/Nodes/Operations.cs:400-416 | The constructor is well typed exactly when every input is a float or unconnected, and then it yields the shape's vector type. |
| OperationNodes.HsvOrdinal | VisualScriptingTool/Nodes/Operations.cs:547-552 | Each colour conversion has the serialised position of its enum member. |
| OperationNodes.HsvInputTypes | VisualScriptingTool/Nodes/Operations.cs:496-508 | Only the three-float operation has three inputs; the others have one. |
| OperationNodes.HsvLinks | VisualScriptingTool/Nodes/Operations.cs:496-510 | Validation gives the operation's inputs in order with their declared types and default settings, keeping surviving connections. |
| OperationNodes.HsvType | VisualScriptingTool/Nodes/Operations.cs:512-520 | The conversion is well typed exactly when every input has its declared type, and it then yields a vector for RGB to HSV and a colour otherwise. |
| OperationNodes.ConvertOrdinal | VisualScriptingTool/Nodes/Operations.cs:636-644 | Each unit conversion has the serialised position of its enum member. |
| OperationNodes.ConvertType | VisualScriptingTool/Nodes/Operations.cs:580-583 | Convert is well typed exactly when its input is a value type other than Int, which passes through unchanged. |
| OperationNodes.ComponentLetter | VisualScriptingTool/Nodes/Operations.cs:984-985 | The letter written for a component in either family names that component and belongs to that family. |
| OperationNodes.ScanSwizzle | VisualScriptingTool/Nodes/Operations.cs:965-974 | The scan keeps at most one entry per character, every entry's index is within the maximum, and its letter names that index. |
| OperationNodes.ValidateSwizzle | VisualScriptingTool/Nodes/Operations.cs:960-982 | The normalised mask holds one to four letters, one per selected component index, each index within the maximum; a mask with no component letters becomes "x" selecting component 0; otherwise it is the first four accepted letters in order. |
| OperationNodes.ScanCleanMask | VisualScriptingTool/Nodes/Operations.cs:965-974 | A mask that is already lower-case component letters within the maximum is accepted letter for letter. |
| OperationNodes.ValidateSwizzleIdempotent | VisualScriptingTool/Nodes/Operations.cs:960-982 | Normalising an already normalised mask gives the same mask and the same component indices. |
| OperationNodes.SwizzleOutType | VisualScriptingTool/Nodes/Operations.cs:944-958 | The output type has as many components as the mask has letters, is never Int, and is a colour exactly for four letters in the colour family. |
| OperationNodes.SwizzleMax | VisualScriptingTool/Nodes/Operations.cs:1017-1035 | The highest component index of a value type is below 4 and is one less than its component count. |
| OperationNodes.SwizzleType | VisualScriptingTool/Nodes/Operations.cs:672-688 | A non-value input is an error and leaves the mask alone; a value input stores the normalised mask and yields a non-Int type with one component per mask letter, a colour exactly when the four letters are mostly colour letters. |
| OperationNodes.SwizzleTypeStable | VisualScriptingTool/Nodes/Operations.cs:672-688 | Running the type rule again on the mask it stored gives the same type and the same mask. |
| OperationNodes.SwizzleTypeAsWritten | VisualScriptingTool/Nodes/Operations.cs:672-679 | On the stored mask, which may be null: a non-value input gives Error and leaves the mask alone, a value input throws exactly when the mask is null, and otherwise the rule gives the normalised mask's type and stores that mask. |
| OperationNodes.SwizzleTypeOrEmpty | VisualScriptingTool/Nodes/Operations.cs:672-688 | Reading an unset mask as the empty one agrees with the rule as written wherever that does not throw, and types an unset mask on a value input as a float read from `x`. |
| OperationNodes.UnsetMaskThrows | VisualScriptingTool/Nodes/Operations.cs:650-679 | A swizzle fed a Vector3 before its mask was ever set throws as written, and the corrected rule gives a float read from `x`. |
| MathNodes.MathOrdinal | VisualScriptingTool/Nodes/MathNode.cs:602-638 | Each math operation has the serialised position of its enum member. |
| MathNodes.ConfigOf | VisualScriptingTool/Nodes/MathNode.cs:654-690 | The configuration table is aligned with the enum, and it gives one input to exactly the sixteen one-input operations and two to all others. |
| MathNodes.InputCount | VisualScriptingTool/Nodes/MathNode.cs:31 | Every operation reads one or two inputs. |
| MathNodes.MathLinks | VisualScriptingTool/Nodes/MathNode.cs:44-55 | Validation leaves correctly counted inputs exactly as they are, and otherwise resizes them to the operation's count as generic values, keeping surviving connections. |
| MathNodes.MathType | VisualScriptingTool/Nodes/MathNode.cs:29-42 | A one-input operation passes any value type through; a two-input operation accepts two scalars, or a vector with an equal vector or a scalar; the result is Int exactly for two ints, a scalar for scalars, and otherwise one of the vector inputs' types. |
| MathNodes.MathAccessors | VisualScriptingTool/Nodes/MathNode.cs:586-600 | The processor installs all six accessors for one input, the four vector accessors when either input is a vector, the int accessor for two ints and the float accessor for a float with a scalar. |
| MathNodes.MathAccessorMatchesType | VisualScriptingTool/Nodes/MathNode.cs:396-600 | For well-typed concrete inputs, the accessor of the type the rule reports is among those the processor installs. |
| MathNodes.IntOperation | VisualScriptingTool/Nodes/MathNode.cs:215-237 | Integer add, subtract and multiply always succeed and agree with exact addition when it fits in 32 bits; division fails exactly for a zero divisor or the minimum value divided by -1, and otherwise truncates toward zero. |
| MathNodes.IntNegative | VisualScriptingTool/Nodes/MathNode.cs:239-242 | Integer negation is exact except at the minimum 32-bit value. |
| MathNodes.SubtractIsAddNegative | VisualScriptingTool/Nodes/MathNode.cs:234-242 | Wrapping subtraction equals wrapping addition of the wrapping negative. |
| MathNodes.IntOperationsCommute | VisualScriptingTool/Nodes/MathNode.cs:219-232 | Wrapping addition and multiplication do not depend on operand order. |
| MathNodes.Zip | VisualScriptingTool/Nodes/MathNode.cs:398-424 | The component-wise operation on two equal vectors applies the operation to each pair of components. |
| MathNodes.BroadcastRight | VisualScriptingTool/Nodes/MathNode.cs:425-453 | A vector with a scalar on the right applies the operation to each component with the scalar. |
| MathNodes.BroadcastLeft | VisualScriptingTool/Nodes/MathNode.cs:482-510 | A scalar on the left with a vector applies the operation to the scalar and each component. |
| MathNodes.BroadcastIsZipWithConstant | VisualScriptingTool/Nodes/MathNode.cs:398-538 | Broadcasting a scalar on either side is the component-wise operation with a vector whose components all equal that scalar. |
| VectorMathNodes.VectorOrdinal | VisualScriptingTool/Nodes/VectorMathNode.cs:333-343 | Each vector operation has the serialised position of its enum member. |
| VectorMathNodes.VectorInputTypes | VisualScriptingTool/Nodes/VectorMathNode.cs:79-109 | Normalize and Length declare one generic vector input and every other operation two. |
| VectorMathNodes.VectorMathLinks | VisualScriptingTool/Nodes/VectorMathNode.cs:79-111 | Validation gives the operation's generic vector inputs with default settings, keeping surviving connections and leaving new inputs unconnected. |
| VectorMathNodes.VectorMathType | VisualScriptingTool/Nodes/VectorMathNode.cs:25-77 | Dot and Distance need two equal vectors and give a float; Normalize keeps a vector's type and Length gives a float; Cross and ProjectOnPlane need two Vector3; Project needs two equal Vector3 or Vector4; Reflect needs two equal Vector2 or Vector3. |
| QuaternionNodes.QuaternionOrdinal | VisualScriptingTool/Nodes/QuaternionMathNode.cs:311-322 | Each quaternion operation has the serialised position of its enum member. |
| QuaternionNodes.QuaternionInputTypes | VisualScriptingTool/Nodes/QuaternionMathNode.cs:93-152 | The two interpolations declare three inputs, the Euler conversions and Inverse one, and the others two. |
| QuaternionNodes.QuaternionLinks | VisualScriptingTool/Nodes/QuaternionMathNode.cs:93-155 | Validation gives the operation's inputs in order with their declared types and default settings, keeping surviving connections and leaving new inputs unconnected. |
| QuaternionNodes.QuaternionType | VisualScriptingTool/Nodes/QuaternionMathNode.cs:25-91 | Multiply accepts a quaternion with a 2-, 3- or 4-vector on either side and has the other operand's type; LookRotation accepts a forward Vector3 with an up Vector3 or nothing; every other operation accepts exactly its declared inputs and gives a quaternion, except ToEuler, which gives a Vector3. |
| OtherNodes.MotionType | VisualScriptingTool/Nodes/Other.cs:183-195 | Spring and Delta accept exactly a float or a 2-, 3- or 4-vector, and then yield the input's own type (never a colour or an int). |
| OtherNodes.DozerType | VisualScriptingTool/Nodes/Other.cs:330-344 | A Dozer is well typed exactly when Update is a bool and the held value is a float, vector or colour, and it yields the held value's type. |
| OtherNodes.DozerStep | VisualScriptingTool/Nodes/Other.cs:348-355 | With Update set the Dozer stores its input whatever Freeze says; without it a frozen Dozer keeps what it held, and an unfrozen one never returns an older value, only the input or zero. |
| OtherNodes.FrozenDozerHoldsLastUpdate | VisualScriptingTool/Nodes/Other.cs:348-386 | With Freeze set, a Dozer holds the input of the last frame whose Update was set, and its starting value when there was none. |
| OtherNodes.UnfrozenDozerIsMemoryless | VisualScriptingTool/Nodes/Other.cs:348-386 | Without Freeze, after at least one frame a Dozer holds the current input when Update is set and zero otherwise. |
| OtherNodes.LimitOrdinal | VisualScriptingTool/Nodes/Other.cs:463-471 | Each limit kind has the serialised position of its enum member. |
| OtherNodes.TimerType | VisualScriptingTool/Nodes/Other.cs:416-420 | A Timer is well typed exactly when its Reset input is a bool, and then it yields a float. |
| OtherNodes.TimerTime | VisualScriptingTool/Nodes/Other.cs:424-428 | An evaluation with Reset set leaves the accumulated time at zero; otherwise the time has advanced by one increment. |
| OtherNodes.TimerCountsSinceReset | VisualScriptingTool/Nodes/Other.cs:424-428 | The accumulated time is the increments of the evaluations after the last reset applied to zero, the reset's own increment being discarded; with no reset it is all increments applied to the starting time. |
| ValueNodes.IOModeOrdinal | VisualScriptingTool/Nodes/Values.cs:505-510 | Each IO mode has the serialised position of its enum member. |
| ValueNodes.IOLinks | VisualScriptingTool/Nodes/Values.cs:35-48 | An output-mode value node has exactly one input, of its own type, required and never defaulted, keeping an existing connection; in the other modes it has no inputs. |
| ValueNodes.OutputInputFlags | VisualScriptingTool/Nodes/Values.cs:40 | The settings given to an output-mode node's input read back as both required and never defaulted. |
| ValueNodes.IOOutputType | VisualScriptingTool/Nodes/Values.cs:41-46 | An output-mode value node declares no output; any other mode declares its own type. |
| ValueNodes.ValueNodeType | VisualScriptingTool/Nodes/Values.cs:19-24 | An output-mode node is an error exactly when its input is neither its own type nor unconnected; otherwise it reports its declared output, which is its own type exactly outside output mode. |
| ValueNodes.ValueNodeProcessor | VisualScriptingTool/Nodes/Values.cs:76-84 | An output-mode node's processor only writes its input into the value; every other mode reads the value through the accessor of the value's own type. |
| ValueNodes.CurveType | VisualScriptingTool/Nodes/Values.cs:332-336 | The curve node is well typed exactly when its input is a float, and it yields a float. |
| ValueNodes.GradientType | VisualScriptingTool/Nodes/Values.cs:381-385 | The gradient node is well typed exactly when its input is a float, and it yields a colour. |
| ValueNodes.RandomOrdinal | VisualScriptingTool/Nodes/Values.cs:492-502 | Each random kind has the serialised position of its enum member. |
| ValueNodes.RandomOutputType | VisualScriptingTool/Nodes/Values.cs:441-459 | Circles give 2-vectors, spheres 3-vectors, the two ranges floats and the two rotations 4-vectors, each exactly. |
| ValueNodes.RandomAccessorMatchesType | VisualScriptingTool/Nodes/Values.cs:436-485 | The accessor the processor installs for each random kind is the one consumers of its declared type call. |
| Int32Math.Wrap32 | VisualScriptingTool/Nodes/MathNode.cs:221-236 | Unchecked 32-bit arithmetic keeps the value congruent modulo 2^32, and exact when it already fits. |
| Int32Math.TruncDivRemainder | VisualScriptingTool/Nodes/MathNode.cs:226 | Integer division truncates toward zero: the remainder left is smaller than the divisor and has the dividend's sign. |
| Int32Math.TruncDiv | VisualScriptingTool/Nodes/MathNode.cs:226 | The quotient's magnitude is the floor of the magnitudes' quotient, and a non-zero quotient is negative exactly when the operands' signs differ, which is truncation toward zero. |
| Int32Math.DivInRange | VisualScriptingTool/Nodes/MathNode.cs:226 | The truncated quotient of two 32-bit ints fits 32 bits except for the minimum value divided by -1. |
| Int32Math.WrapAdd | VisualScriptingTool/Nodes/MathNode.cs:231-236 | Wrapping may be applied before or after an addition with the same result. |
| Int32Math.WrapMul | VisualScriptingTool/Perlin.cs:88 | Wrapping may be applied before or after a multiplication with the same result. |
| Int32Math.TruncRem | VisualScriptingTool/Perlin.cs:34-37 | The integer remainder throws exactly for a zero divisor or the minimum value by -1; otherwise it is smaller than the divisor, has the dividend's sign, differs from the dividend by a multiple of the divisor, and agrees with the mathematical remainder for non-negative operands. |
| Perlin.GradIndex | VisualScriptingTool/Perlin.cs:53-57 | The masked hash always selects an entry of the 1753-element gradient table. |
| Perlin.GradIndexIgnoresSeedSign | VisualScriptingTool/Perlin.cs:55-56 | Two seeds that differ only in the sign bit select the same gradient at every lattice point. |
| Perlin.GradIndexUsesLow24BitsOfY | VisualScriptingTool/Perlin.cs:55-56 | Only the low 24 bits of the y coordinate reach the table index. |
| Perlin.LatticeCell | VisualScriptingTool/Perlin.cs:22-37 | The lattice step succeeds exactly when the repeat size is non-zero and, for -1, no corner is the minimum int. |
| Perlin.LatticeTiles | VisualScriptingTool/Perlin.cs:22-37 | For a positive repeat size and non-negative coordinates, every corner is its coordinate modulo the repeat size and lies in [0, repeat). |
| Perlin.LatticePeriodic | VisualScriptingTool/Perlin.cs:22-37 | Shifting both coordinates by one repeat size selects the same lattice corners. |
| Perlin.SeedOffset | VisualScriptingTool/Perlin.cs:81-131 | The seed moves only in the FBM and RigidMulti sums and only after the first octave. |
| Perlin.OctaveCount | VisualScriptingTool/Perlin.cs:77-91 | A sum samples at least once, and exactly once per octave when the octave count is positive. |
| Perlin.OctaveSchedule | VisualScriptingTool/Perlin.cs:75-131 | The loop passes one (repeat, seed) pair per octave, octave i having the repeat size times the lacunarity to the i, and the seed advanced i steps (not at all for Billow), both wrapped to 32 bits. |
| Perlin.BillowKeepsSeed | VisualScriptingTool/Perlin.cs:97-109 | Billow samples every octave with the caller's seed. |
| Perlin.FbmSeedsDistinct | VisualScriptingTool/Perlin.cs:75-91 | FBM and RigidMulti never sample two octaves with the same seed. |
| Perlin.UnitLacunarityKeepsRepeat | VisualScriptingTool/Perlin.cs:83-88 | With a lacunarity of one every octave keeps the caller's repeat size. |
| PerlinNodes.PerlinInputSettings | VisualScriptingTool/Nodes/PerlinNode.cs:17-22 | The four parameters are required and take default constants when unconnected; the sampled point is required and never defaulted. |
| PerlinNodes.PerlinType | VisualScriptingTool/Nodes/PerlinNode.cs:27-35 | The node is well typed exactly when its five inputs are three ints, a float and a 2-vector, and it yields a float. |
| PerlinNodes.PerlinSignatureMatchesInputs | VisualScriptingTool/Nodes/PerlinNode.cs:17-35 | The declared input types are exactly those the type rule accepts. |
| PerlinNodes.PerlinOctaves | VisualScriptingTool/Nodes/PerlinNode.cs:39-47 | The node samples FBM with lacunarity two: octave i tiles with the repeat size times 2^i and uses seed plus i, both wrapped to 32 bits. |
| Text.Split | VisualScriptingTool/Core/Serializer.cs:205 | Splitting gives at least one piece, no piece holds the separator, and joining the pieces with the separator gives back the text. |
| Text.SplitJoin | VisualScriptingTool/Core/Serializer.cs:295-309 | Splitting a join of separator-free parts gives back exactly those parts. |
| Text.SplitJoinLast | VisualScriptingTool/Core/Serializer.cs:180-226 | Splitting a join whose leading parts avoid the separator gives those parts, followed by the pieces of the last part. |
| Text.JoinAvoids | VisualScriptingTool/Core/Serializer.cs:295-304 | Joining parts that avoid a character, with a different separator, avoids that character. |
| Text.Join | VisualScriptingTool/Core/Serializer.cs:295-304 | Joining no parts gives empty text, and the joined text starts with the first part. |
| Text.IntToString | VisualScriptingTool/Core/Serializer.cs:113-116 | The printed form of an int is non-empty and free of every separator, starts with a minus sign exactly for negative numbers, and is all digits otherwise. |
| Text.IntRoundTrip | VisualScriptingTool/Core/Serializer.cs:113-116 | Every 32-bit int reads back as itself from its printed form. |
| Text.IntToStringInjective | VisualScriptingTool/Core/Serializer.cs:113-116 | Different ints print differently. |
| Text.ParseInt | VisualScriptingTool/Core/Serializer.cs:154-155 | The parse succeeds only on text made of white space, signs and digits, and reads a plain digit string that fits an int, with or without a leading plus sign, as its decimal value. |
| Text.ParseIntPadded | VisualScriptingTool/Core/Serializer.cs:154-155 | White space before and after the number does not change what the parse reads, or whether it throws. |
| Text.ParseFloat | VisualScriptingTool/Core/Serializer.cs:156-157 | A float parse succeeds exactly on non-empty separator-free text, which is the value. |
| Text.ParseFloats | VisualScriptingTool/Core/Serializer.cs:305-324 | Parsing a list of float texts succeeds exactly when every item is a float text, and keeps the items. |
| Text.BoolRoundTrip | VisualScriptingTool/Core/Serializer.cs:117-118 | A bool reads back as itself from its one-letter token. |
| Text.ParseBool | VisualScriptingTool/Core/Serializer.cs:160-161 | A bool field reads as true only from the exact text "t". |
| CurveCodec.ReadInt | VisualScriptingTool/Core/Serializer.cs:209-210 | Reading an int succeeds exactly when the text parses, with the parsed value. |
| CurveCodec.ReadFloat | VisualScriptingTool/Core/Serializer.cs:217-220 | Reading a float succeeds exactly on float text, giving that value. |
| CurveCodec.ParseKeyframe | VisualScriptingTool/Core/Serializer.cs:214-222 | A key with fewer than five ','-separated items fails (index out of range). |
| CurveCodec.ParseKeyframes | VisualScriptingTool/Core/Serializer.cs:211-223 | When every key reads, there is one key per item. |
| CurveCodec.ParseCurve | VisualScriptingTool/Core/Serializer.cs:203-226 | Text with no ';' reads as a fresh curve with no keys; otherwise a successful read has one key per item after the two wrap modes. |
| CurveCodec.KeyframeRoundTrip | VisualScriptingTool/Core/Serializer.cs:187-222 | Every key reads back as itself from its text. |
| CurveCodec.KeyframesRoundTrip | VisualScriptingTool/Core/Serializer.cs:187-223 | Every list of keys reads back as itself. |
| CurveCodec.CurveTextAvoids | VisualScriptingTool/Core/Serializer.cs:180-202 | A curve's text holds neither the record separator '#' nor the field separator (a vertical bar). |
| CurveCodec.CurveRoundTrip | VisualScriptingTool/Core/Serializer.cs:180-226 | Every curve reads back as itself from its text. |
| CurveCodec.ParseColorKey | VisualScriptingTool/Core/Serializer.cs:271-276 | A colour key with fewer than five items fails. |
| CurveCodec.ParseAlphaKey | VisualScriptingTool/Core/Serializer.cs:284-289 | An alpha key with fewer than two items fails. |
| CurveCodec.ParseColorKeys | VisualScriptingTool/Core/Serializer.cs:267-278 | When every colour key reads, there is one per item. |
| CurveCodec.ParseAlphaKeys | VisualScriptingTool/Core/Serializer.cs:280-291 | When every alpha key reads, there is one per item. |
| CurveCodec.ColorKeysRoundTrip | VisualScriptingTool/Core/Serializer.cs:233-247 | Every list of colour keys reads back as itself. |
| CurveCodec.AlphaKeysRoundTrip | VisualScriptingTool/Core/Serializer.cs:249-257 | Every list of alpha keys reads back as itself. |
| CurveCodec.GradientTextAvoids | VisualScriptingTool/Core/Serializer.cs:228-259 | A gradient's text holds neither '#' nor the vertical bar. |
| CurveCodec.ParseGradient | VisualScriptingTool/Core/Serializer.cs:260-293 | Text with no ';' reads as a fresh gradient; any other successful read has at least one colour key and one alpha key. |
| CurveCodec.GradientRoundTrip | VisualScriptingTool/Core/Serializer.cs:228-293 | A gradient with at least one key of each kind reads back as itself. |
| CurveCodec.KeylessGradientFails | VisualScriptingTool/Core/Serializer.cs:260-293 | A gradient with no colour keys does not read back, because its empty key list splits into one empty item. |
| FieldCodec.ReadField | VisualScriptingTool/Core/Serializer.cs:151-178 | A successful read has the field's declared type; a string takes the text as it is, and a bool is true exactly for "t". |
| FieldCodec.ReadComponents | VisualScriptingTool/Core/Serializer.cs:305-324 | A vector with too few ','-separated items fails; a successful read is the first items, as many as the vector has components. |
| FieldCodec.FieldRoundTrip | VisualScriptingTool/Core/Serializer.cs:109-178 | Every field except a gradient missing a key kind reads back as itself from its text. |
| FieldCodec.FieldTextAvoids | VisualScriptingTool/Core/Serializer.cs:109-150 | Only a string field can put the record separator '#' or the field separator (a vertical bar) into its text. |
| FieldCodec.UnescapedStringSplits | VisualScriptingTool/Core/Serializer.cs:119-120 | A string holding a vertical bar is written unescaped and splits into two fields. |
| FieldCodec.ValueField | VisualScriptingTool/Nodes/Values.cs:60-279 | A value node's Value field is never a string and always reads back. |
| FieldCodec.FieldValue | VisualScriptingTool/Nodes/Values.cs:60-279 | A field of the tag's declared type always holds a value, and that value has the tag's type. |
| FieldCodec.ValueFieldRoundTrip | VisualScriptingTool/Core/Serializer.cs:109-178 | A value's field has its tag's declared type and gives the value back. |
| Nodes.Fresh | VisualScriptingTool/Core/NodeCollector.cs:27 | Constructing a class afresh yields a node of that same class: the type id is kept while every setting returns to its initial value, the swizzle mask and the value name being null. |
| Nodes.KindForTypeId | VisualScriptingTool/Core/NodeCollector.cs:20-40 | The registry maps an id only to a freshly constructed class whose own id is that string, with its strings still null; an unknown string maps to nothing. |
| Nodes.TypeIdRoundTrip | VisualScriptingTool/Core/NodeCollector.cs:20-73 | Every node class is registered under its class name, and looking that name up constructs the class afresh. |
| Nodes.ValueClassRoundTrip | VisualScriptingTool/Core/NodeCollector.cs:20-40 | The value-node class of each payload type is registered under its class name. |
| Nodes.PayloadNamesRegistered | VisualScriptingTool/Nodes/DefaultValues.cs:66-219 | For each payload type, both its value-node class and its default-node class (Fl, V2, V3, V4, Co, Bo, In) are registered, each for its own class and for no other. |
| Nodes.ConstructorInputs | VisualScriptingTool/Core/Node.cs:39-57 | A constructor's links are all unconnected, and none remembers a default node. |
| Nodes.ConstructorOutputType | VisualScriptingTool/Core/NodeCollector.cs:35 | No class declares Error or None as its output type on construction. |
| Nodes.ConstructorInputsSuffice | VisualScriptingTool/Core/Node.cs:39-57 | Every constructor declares at least as many inputs as the validation and type rule of its class later index. |
| Nodes.Construct | VisualScriptingTool/Core/NodeDataSerialisationPart.cs:186-194 | A created node has the requested id, the class constructed afresh, only unconnected inputs, a declared type other than Error, nothing cached, and keeps the node shape the graph relies on. |
| Nodes.ValidatedInputs | VisualScriptingTool/Core/Node.cs:39-57 | Validation resizes the inputs to what the rule needs; a connection survives wherever its slot survives and new slots are unconnected; classes without settings keep their inputs as they are. |
| Nodes.OnValidate | VisualScriptingTool/Core/Node.cs:102 | Validation keeps the node's id, class, position and cached type and its shape; only a value node's controllability changes, and then it is controllable exactly when it is not an IO node. |
| Nodes.OnValidateIdempotent | VisualScriptingTool/Core/Node.cs:67-99 | Validating a validated node changes nothing, so the type pass may validate a node each time it reaches it. |
| Nodes.OperationRuleType | VisualScriptingTool/Nodes/Operations.cs:29-688 | The operation rules never yield None, give a concrete type on concrete inputs, and yield Error whenever an input they read is Error; the swizzle case uses the corrected rule, which reads an unset mask as empty. |
| Nodes.ArithmeticRuleType | VisualScriptingTool/Nodes/MathNode.cs:29-42 | The math, vector math, quaternion and Perlin rules never yield None, give a concrete type on concrete inputs, and propagate an Error input. |
| Nodes.MotionRuleType | VisualScriptingTool/Nodes/Other.cs:183-420 | The Spring, Delta, Dozer and Timer rules never yield None, give a concrete type on concrete inputs, and propagate an Error input. |
| Nodes.SourceRuleType | VisualScriptingTool/Nodes/Values.cs:19-24 | Among the value sources, only a graph output yields None, and it does so exactly when its input has its own type or is unconnected. |
| Nodes.RuleType | VisualScriptingTool/Core/Node.cs:101 | The type of any node's rule is concrete on concrete inputs, is Error whenever a read input is Error, and is None only for an output node whose input matches; the swizzle case reads an unset mask as empty. |
| Nodes.RuleNode | VisualScriptingTool/Core/Node.cs:101 | A rule changes at most the inputs of VecModify and value nodes and the mask of a swizzle; the id, position, controllability and every surviving connection stay. An unset swizzle mask is read as empty. |
| Nodes.CheckInputsAndGetType | VisualScriptingTool/Core/Node.cs:83-101 | Type checking keeps the node's id and class, taints the result with any Error input it reads, and yields None exactly for a matched graph output; with the corrected swizzle rule, which reads an unset mask as empty. |
| Nodes.CheckInputsAsWritten | VisualScriptingTool/Nodes/Operations.cs:672-679 | As written, type checking throws exactly for a swizzle whose mask was never set on a value input; otherwise it agrees with the corrected check, and a set mask stays set. |
| Nodes.DeclaredTypeBoundsRule | VisualScriptingTool/Core/NodeCollector.cs:76-83 | Apart from the colour converter and the swizzle, the type a validated node's rule computes is always one its declared output type accepts. |
| Nodes.OperationDeclaredBounds | VisualScriptingTool/Nodes/Operations.cs:29-688 | Each operation's declared output type accepts whatever non-Error type its rule computes. |
| Nodes.MotionDeclaredBounds | VisualScriptingTool/Nodes/Other.cs:183-420 | Each motion or timer node's declared output type accepts whatever non-Error type its rule computes. |
| Graph.DistinctPairwise | VisualScriptingTool/Core/NodeDataSerialisationPart.cs:10 | A sequence of ids is without repeats exactly when any two of its positions hold different ids, as the keys of the node dictionary are. |
| Graph.DistinctTail | VisualScriptingTool/Core/NodeDataSerialisationPart.cs:10 | A sequence is without repeats exactly when its head is not in its tail and its tail is without repeats. |
| Graph.EmptyGraphValid | VisualScriptingTool/Core/NodeData.cs:19-23 | A new graph, with no nodes and both id counters at their start, keeps the table invariant and has no dangling links. |
| Graph.GetNode | VisualScriptingTool/Core/NodeDataSerialisationPart.cs:171-180 | A lookup finds a node exactly when the id is a key of the table, and then finds the node stored under it. |
| Graph.NoNodeIdFindsNothing | VisualScriptingTool/Core/NodeDataSerialisationPart.cs:171-180 | An unconnected link's id never finds a node in a valid graph. |
| Graph.GetAllNodes | VisualScriptingTool/Core/NodeDataSerialisationPart.cs:224-232 | Listing the nodes yields as many entries as the table holds, every stored node, and nothing else. |
| Graph.EnumerationLength | VisualScriptingTool/Core/NodeDataSerialisationPart.cs:229-230 | An enumeration of a set without repeats has exactly as many entries as the set. |
| Graph.CreateNodeWithId | VisualScriptingTool/Core/NodeDataSerialisationPart.cs:186-194 | Creating under a taken id throws; an unknown type id creates nothing and leaves the graph alone; otherwise exactly one unconnected node of the requested class is added under the id. |
| Graph.CreateNode | VisualScriptingTool/Core/NodeDataSerialisationPart.cs:182-185 | On a valid graph creation never throws, consumes the next positive id whether or not the type id is known, creates a node exactly when it is, gives it an id above every positive id in use, and keeps the graph valid and closed. |
| Graph.CreateDefaultNode | VisualScriptingTool/Core/NodeDataSerialisationPart.cs:201-209 | A default node takes the next negative id, holds a constant its requested type accepts, has no connected inputs, and is created exactly when a default class exists for the type. |
| Graph.CreationIdsSeparate | VisualScriptingTool/Core/NodeDataSerialisationPart.cs:182-209 | Ordinary nodes get ids above the initial counter and default nodes ids below its negative counterpart, so the two never collide. |
| Graph.Scrub | VisualScriptingTool/Core/NodeDataSerialisationPart.cs:215-219 | Disconnecting a removed node clears exactly the links that pointed at it and leaves every other link, and every link's type and settings, as they were. |
| Graph.RemoveNode | VisualScriptingTool/Core/NodeDataSerialisationPart.cs:211-222 | Removal drops exactly that id, leaves no link pointing at it, changes nothing else in any remaining node, and keeps the graph valid and closed. |
| Graph.CreateThenRemove | VisualScriptingTool/Core/NodeDataSerialisationPart.cs:182-222 | Removing a node just created restores the node table as it was. |
| Graph.GetValue | VisualScriptingTool/Core/NodeDataSerialisationPart.cs:19-103 | A getter succeeds exactly on a value node of its own type and returns a value of that type; any other node, or none, is a "Wrong type" failure. |
| Graph.SetValue | VisualScriptingTool/Core/NodeDataSerialisationPart.cs:25-100 | A setter succeeds exactly on a value node of the value's type, and then changes no other node and no id counter. |
| Graph.SetThenGet | VisualScriptingTool/Core/NodeDataSerialisationPart.cs:19-103 | After setting a value node, getting it yields the value set, and getting any other node yields what it yielded before. |
| Graph.GetThenSet | VisualScriptingTool/Core/NodeDataSerialisationPart.cs:19-103 | Setting a value node to the value it already holds leaves the graph unchanged. |
| Graph.BeginInputInit | VisualScriptingTool/Core/NodeDataSerialisationPart.cs:109-121 | Gathering maps each graph input and output by its name to its own node, every one of which has a name; it fails only when one of them has a null name or two of them share a name. |
| Graph.SharedPrefix | VisualScriptingTool/Core/NodeDataSerialisationPart.cs:112-117 | A name shared within a prefix of the enumeration is shared within the whole enumeration. |
| Graph.BeginInputInitFails | VisualScriptingTool/Core/NodeDataSerialisationPart.cs:109-121 | Over an enumeration without repeats, gathering throws exactly when a graph input or output has a null name or two of them share a name. |
| Graph.SetIOMode | VisualScriptingTool/Core/NodeDataSerialisationPart.cs:164 | Setting the IO mode changes only that value node's mode and keeps the graph valid and closed. |
| Graph.CreateIO | VisualScriptingTool/Core/NodeDataSerialisationPart.cs:150-166 | Claiming an IO node fails exactly when no IO class exists for the type; a gathered node of the name is reused and leaves the pending set, and otherwise a new value node of the type, name and mode is created under the next id. |
| Graph.CreateNamed | VisualScriptingTool/Core/NodeDataSerialisationPart.cs:156-161 | A new IO node takes the next id and carries the requested type, name and mode; no other node changes. |
| Graph.RemoveUnclaimed | VisualScriptingTool/Core/NodeDataSerialisationPart.cs:124-129 | A node remains exactly when it was never left unclaimed or is used as an external value; kept nodes keep everything but links to removed nodes, and the counters and sinks are unchanged. |
| Graph.NothingClaimedRemovesIO | VisualScriptingTool/Core/NodeDataSerialisationPart.cs:109-129 | Gathering over a full enumeration and then removing at once, with nothing claimed, removes exactly the graph inputs and outputs not used as external values. |
| Processors.EndInputInit | VisualScriptingTool/Core/NodeDataSerialisationPart.cs:122-131 | Ending initialisation keeps exactly the claimed and external nodes and prepares every sink; it fails whenever a removed node is still listed as a sink. |
| Typing.LinksWithinTransitive | VisualScriptingTool/Core/Node.cs:67-99 | Two passes in a row, each of which only drops connections, together only drop connections. |
| Typing.ReplaceLinksWithin | VisualScriptingTool/Core/Node.cs:39-57 | Writing back a node whose links keep each surviving slot's connection and leave new slots unconnected makes no new connection. |
| Typing.WriteLinksWithin | VisualScriptingTool/Core/Node.cs:67-99 | Writing back a node whose connections all come from the original graph keeps a pass from making new connections. |
| Typing.Settle | VisualScriptingTool/Core/Node.cs:83 | Applying the rule stores the computed concrete type in the node's cache, changes no other node, keeps the table's ids, shape and counters, and propagates an Error input the rule reads; with the corrected swizzle rule, which reads an unset mask as empty. |
| Typing.UpdateTypes | VisualScriptingTool/Core/Node.cs:67-84 | The full pass, with the corrected swizzle rule, which reads an unset mask as empty, always yields a concrete type and caches it on the node; reaching a node already on the current path yields Error; it never adds a node, changes a counter or makes a connection. |
| Typing.InputTypes | VisualScriptingTool/Core/Node.cs:73-82 | An input's type is None when its link finds no node and Error when it leads back onto the current path; there is one concrete type per input, with the corrected swizzle rule, which reads an unset mask as empty. |
| Typing.TypeLink | VisualScriptingTool/Core/Node.cs:76-81 | Typing a link that finds no node gives None and leaves the graph untouched; a link into the current path gives Error. |
| Typing.ReadOfPathIsError | VisualScriptingTool/Core/Node.cs:67-84 | A node with an input its rule reads that leads back to itself or onto the current path gets Error, so a cycle through read inputs is always reported. |
| Typing.UpdateTypesLight | VisualScriptingTool/Core/Node.cs:85-99 | When the light pass ends, it has cached a concrete type on the node and, like the full pass, added no node, changed no counter and made no connection; with the corrected swizzle rule, which reads an unset mask as empty. |
| Typing.InputTypesLight | VisualScriptingTool/Core/Node.cs:88-97 | When the light pass ends, it gives one concrete type per input, with the corrected swizzle rule, which reads an unset mask as empty. |
| Typing.TypeLinkLight | VisualScriptingTool/Core/Node.cs:91-96 | The light pass types a link that finds no node as None and leaves the graph untouched. |
| Typing.SettleAsWritten | VisualScriptingTool/Core/Node.cs:83 | Settling as written throws exactly for a swizzle with an unset mask on a value input, and otherwise settles as the corrected pass does. |
| Typing.UpdateTypesAsWritten | VisualScriptingTool/Core/Node.cs:67-84 | The full pass as written, when it returns, returns exactly what the corrected pass does; on a graph whose swizzle masks are all set it always returns and leaves them set. |
| Typing.InputTypesAsWritten | VisualScriptingTool/Core/Node.cs:73-82 | The input loop as written agrees with the corrected loop when it returns, and always returns when every swizzle mask is set. |
| Typing.TypeLinkAsWritten | VisualScriptingTool/Core/Node.cs:76-81 | Typing a link as written agrees with the corrected pass when it returns, and always returns when every swizzle mask is set. |
| Typing.UpdateTypesLightAsWritten | VisualScriptingTool/Core/Node.cs:85-99 | The light pass as written, when it does not throw, ends or runs out of depth exactly as the corrected light pass does; it never throws when every swizzle mask is set. |
| Typing.InputTypesLightAsWritten | VisualScriptingTool/Core/Node.cs:88-97 | The light input loop as written agrees with the corrected one when it does not throw, and never throws when every swizzle mask is set. |
| Typing.TypeLinkLightAsWritten | VisualScriptingTool/Core/Node.cs:91-96 | Typing a link in the light pass as written agrees with the corrected pass when it does not throw, and never throws when every swizzle mask is set. |
| Typing.UnsetMaskPassThrows | VisualScriptingTool/Nodes/Operations.cs:649-679 | A swizzle whose mask was never set, reading a Vector3 value node: the full pass as written throws, and the corrected pass types the swizzle as a float. |
| Typing.RankedWithin | VisualScriptingTool/Core/Node.cs:67-99 | A pass only drops connections, so a graph whose links all point to lower-ranked nodes stays that way. |
| Typing.LightAgrees | VisualScriptingTool/Core/Node.cs:67-99 | On an acyclic graph, with enough depth, the light pass without loop protection computes the same types and the same graph as the full pass. |
| Typing.InputsAgree | VisualScriptingTool/Core/Node.cs:73-97 | On an acyclic graph, with enough depth, the light and full passes compute the same input types and the same graph. |
| Processors.GrewTransitive | VisualScriptingTool/Core/NodeData.cs:76-101 | Two compilation steps in a row, each of which only adds processors and raises counts, together only add processors and raise counts. |
| Processors.GetNodeProcessor | VisualScriptingTool/Core/NodeData.cs:76-101 | A missing node or one typed Error gets no processor and changes nothing; any other node is requested once more, keeps every existing processor and count, and is returned only when it is that node's own processor. |
| Processors.Visit | VisualScriptingTool/Core/NodeData.cs:81-89 | A node's first request creates a processor with one empty slot per input; every request raises its output count by exactly one and touches no other processor. |
| Processors.Finish | VisualScriptingTool/Core/NodeData.cs:94-99 | The processor is returned exactly when every required input resolved, and the several-outputs optimisation is applied exactly when the processor is returned at its second request. |
| Processors.ResolveInputs | VisualScriptingTool/Core/NodeData.cs:91-95 | Resolving a node's inputs never drops a processor or lowers a count, and every processor still belongs to a node with one slot per input. |
| Processors.Slot | VisualScriptingTool/Core/NodeData.cs:93 | Storing an input's resolved processor changes only that slot of that processor. |
| Processors.AcyclicRequest | VisualScriptingTool/Core/NodeData.cs:76-101 | On an acyclic graph a request raises the node's count by one, leaves every processor ranked at or above it untouched, wraps each processor at most once and only after a second request, and a returned processor has every required input resolved. |
| Processors.VisitKeepsWrappedOnce | VisualScriptingTool/Core/NodeData.cs:89 | Counting a request keeps every processor wrapped at most once, and only after two requests. |
| Processors.FinishKeeps | VisualScriptingTool/Core/NodeData.cs:94-99 | Finishing a request wraps at most once, at the second request, and a returned processor has all its required inputs resolved. |
| Processors.AcyclicResolve | VisualScriptingTool/Core/NodeData.cs:91-95 | On an acyclic graph, resolving the inputs from a slot onwards leaves earlier slots and the node's own counts alone, and on success fills every later required slot. |
| Processors.FirstInputRequestedAgain | VisualScriptingTool/Core/NodeData.cs:91-93 | A node with a valid first input always requests that input's processor once more, even when the node itself is reached a second time. |
| Processors.Prepare | VisualScriptingTool/Core/NodeData.cs:35-44 | Preparing gives one slot per graph output, each empty or that output's own processor; an output id with no node makes preparation fail; the types are refreshed without new connections or new nodes. |
| Processors.SlotsForCons | VisualScriptingTool/Core/NodeData.cs:37-43 | A slot for the first output followed by slots for the rest are slots for all the outputs. |
| Processors.PrepareFrom | VisualScriptingTool/Core/NodeData.cs:38-43 | Preparing from an output onwards fails unless every later output names a node, and gives each of them its own slot. |
| Processors.PrepareCons | VisualScriptingTool/Core/NodeData.cs:38-43 | Joining the slot for one output and the slots for the following outputs gives the slots from that output onwards. |
| Processors.PrepareSink | VisualScriptingTool/Core/NodeData.cs:40-42 | Preparing one output requires its node to exist, refreshes the types, and yields one slot holding nothing or that node's processor. |
| Processors.Process | VisualScriptingTool/Core/NodeData.cs:46-56 | A frame advances the frame counter by exactly one; before any preparation nothing runs; otherwise the prepared outputs run in order, and it fails exactly when some slot has no output processor to run. |
| Processors.RunSinks | VisualScriptingTool/Core/NodeData.cs:54-55 | Running the slots calls the processors in slot order and fails exactly when some slot cannot be run; without failure every slot runs. |
| Processors.GetDeadEnds | VisualScriptingTool/Core/NodeData.cs:63-74 | The dead ends are exactly the listed nodes that no input of a listed node links to. |
| Processors.ValidateNodes | VisualScriptingTool/Core/NodeData.cs:103-119 | A node validates exactly when it exists and is not typed Error, none of its inputs is typed Error, and every required input links to a node not typed Error. |
| Processors.PrepareThenProcess | VisualScriptingTool/Core/NodeData.cs:35-56 | When every prepared slot can run, the next frame runs exactly the graph's outputs, in order, once each. |
| Defaults.Attach | VisualScriptingTool/Nodes/DefaultValues.cs:32-37 | A found node whose declared type the link accepts is reused; otherwise a new default node of the link's type is created, or none when the type has no default class; the link and its remembered default both name the result, and no existing node changes. |
| Defaults.ToDefaultAsWritten | VisualScriptingTool/Nodes/DefaultValues.cs:25-38 | Exactly as written, a link with defaults disabled or a real connection is left alone, and any other link ends up served by a node whose type it accepts, or unconnected when its type has no default class; the graph only gains nodes and stays valid and closed. |
| Defaults.ToDefaultBy | VisualScriptingTool/Nodes/DefaultValues.cs:25-38 | Whether the lookup reads the current id, as written, or the remembered one, the link keeps its type and settings and ends up served, and the graph only gains nodes. |
| Defaults.AsWrittenForgetsLastDefault | VisualScriptingTool/Nodes/DefaultValues.cs:30-32 | As written, an unconnected link whose remembered default node still exists gets a newly created node instead of it, because the lookup reads the link's own id rather than the remembered one. |
| Defaults.ToDefault | VisualScriptingTool/Nodes/DefaultValues.cs:25-38 | A link with defaults disabled or a real connection is left alone; any other link ends up served by a node whose type it accepts, or unconnected when its type has no default class; the graph only gains nodes and stays valid and closed. |
| Defaults.ToDefaultRestoresLastDefault | VisualScriptingTool/Nodes/DefaultValues.cs:30-37 | An unconnected link whose remembered default node still exists and still fits is reconnected to it, and no node is created. |
| Defaults.VersionsAgreeUnlessUnconnected | VisualScriptingTool/Nodes/DefaultValues.cs:30-32 | The written and the corrected lookups differ only for a link that is unconnected and remembers a default node. |
| Defaults.ForgottenDefaultExample | VisualScriptingTool/Nodes/DefaultValues.cs:30-37 | A float link that remembers default node -3 gets a new node -4 as written, while the corrected lookup gives back node -3. |
| Defaults.DefaultLinks | VisualScriptingTool/Nodes/DefaultValues.cs:42-46 | With the source's lookup or the corrected one, defaulting a node's inputs keeps their number, types and settings, leaves every input served, and only adds nodes to the graph. |
| Defaults.GrowsTransitive | VisualScriptingTool/Nodes/DefaultValues.cs:48-53 | Two defaulting steps in a row, each keeping every node's class and declared type, together keep them too. |
| Defaults.ServedGrows | VisualScriptingTool/Nodes/DefaultValues.cs:48-53 | An input served in a graph stays served after later steps that keep every node's class and declared type. |
| Defaults.InitNodeDefaults | VisualScriptingTool/Nodes/DefaultValues.cs:42-46 | With either lookup, initialising one node's defaults changes only that node's links, keeps their number, serves every one of them, and keeps the graph valid and closed. |
| Defaults.WriteLinks | VisualScriptingTool/Nodes/DefaultValues.cs:44-45 | Writing a node's new links back keeps every other node, every class and declared type, the table invariant, and closure when each new link is unconnected, points at a node, or is unchanged. |
| Defaults.InitNodeDefaultsShaped | VisualScriptingTool/Nodes/DefaultValues.cs:42-46 | With either lookup, initialising a node's defaults keeps every node shaped as its class requires. |
| Defaults.InitAllDefaults | VisualScriptingTool/Nodes/DefaultValues.cs:42-53 | With either lookup, initialising the defaults of every node keeps the graph valid and closed and changes no node outside the list. |
| Defaults.InitAllDefaultsServes | VisualScriptingTool/Nodes/DefaultValues.cs:42-53 | With either lookup, after initialising every node's defaults, every input of every listed node is served. |
| Defaults.InitAllDefaultsUnfold | VisualScriptingTool/Nodes/DefaultValues.cs:50-52 | With either lookup, initialising all nodes' defaults is initialising the first node's and then the rest's. |
| Defaults.NodeServedKept | VisualScriptingTool/Nodes/DefaultValues.cs:50-52 | A node whose inputs are served stays so while later nodes' defaults are initialised. |
| Defaults.PayloadWidth | VisualScriptingTool/Nodes/DefaultValues.cs:66-219 | Every default class stores at least one component. |
| Defaults.DefaultFromLines | VisualScriptingTool/Nodes/DefaultValues.cs:82-219 | Reading a default's payload fails when the record is too short and otherwise gives a value of the class's own type; a bool reads "t" as true, and a float, vector or colour takes its components from the lines after the id. |
| Defaults.PayloadRoundTrip | VisualScriptingTool/Nodes/DefaultValues.cs:78-219 | Reading back a default's written payload, after the type id and node id, gives the value that was written. |
| Defaults.ScalarPayloadRoundTrip | VisualScriptingTool/Nodes/DefaultValues.cs:88-131 | A bool or int default reads back as written. |
| Defaults.FloatPayloadRoundTrip | VisualScriptingTool/Nodes/DefaultValues.cs:66-219 | A float, vector or colour default reads back as written, component by component. |
| Defaults.PayloadHasNoRecordSeparator | VisualScriptingTool/Nodes/DefaultValues.cs:78-219 | A default's payload never contains the record separator, so it cannot split the saved node list. |
| Editor.KeysBetween | VisualScriptingTool/Core/NodeDataSerialisationPart.cs:224-232 | The ids of the table within a range, each once, in ascending order, and no others. |
| Editor.Enumeration | VisualScriptingTool/Core/NodeDataSerialisationPart.cs:224-232 | The table is listed in the order the caller supplies whenever that order names every node once; in every case each node of a valid table is listed exactly once. |
| Editor.DeadEndOrder | VisualScriptingTool/Core/NodeData.cs:63-74 | The dead ends, listed in node order, are exactly the listed nodes no listed node links to, each once. |
| Editor.DeadEndsAgree | VisualScriptingTool/Core/NodeData.cs:63-74 | The dead-end set and the dead ends listed in node order hold the same nodes. |
| Editor.AdmitSink | VisualScriptingTool/Editor/EditorWindow/NodeEditorWindow.cs:350-359 | A dead end becomes a graph output exactly when it validates, its processor has an output to run, and its declared type is not Error; typing and compiling it add no node and make no connection. |
| Editor.AdmitSinks | VisualScriptingTool/Editor/EditorWindow/NodeEditorWindow.cs:349-360 | Admitting the dead ends in turn keeps the table's ids and counters and only drops connections. |
| Editor.AdmitSinksOutputs | VisualScriptingTool/Editor/EditorWindow/NodeEditorWindow.cs:349-360 | The outputs admitted are some of the dead ends, in their order, each at most once. |
| Editor.TailInside | VisualScriptingTool/Editor/EditorWindow/NodeEditorWindow.cs:350 | Dead ends still to be admitted are still nodes of the graph after earlier ones are typed. |
| Editor.AdmitCons | VisualScriptingTool/Editor/EditorWindow/NodeEditorWindow.cs:357-358 | Admitting or skipping the first dead end keeps the outputs a repeat-free choice among the dead ends. |
| Editor.ConsistentWithin | VisualScriptingTool/Core/Node.cs:67-99 | A pass that keeps the table's ids and counters and only drops connections keeps the graph valid, closed and shaped. |
| Editor.RebuildGraph | VisualScriptingTool/Editor/EditorWindow/NodeEditorWindow.cs:341-364 | Rebuilding keeps the set of nodes and both id counters, and leaves the external-value lists initialised. |
| Editor.RebuildExternals | VisualScriptingTool/Editor/EditorWindow/NodeEditorWindow.cs:363-364 | After a rebuild each external-value list holds exactly the rebuilt graph's external nodes of its class, once each, with their own ids and names. |
| Editor.RebuildOutputs | VisualScriptingTool/Editor/EditorWindow/NodeEditorWindow.cs:341-361 | After a rebuild, the graph's outputs are dead ends of the graph, each at most once, and each prepared slot belongs to its output. |
| Editor.RebuildWithin | VisualScriptingTool/Editor/EditorWindow/NodeEditorWindow.cs:341-361 | A rebuild keeps every node shaped and stored under its own id, and makes no new connection. |
| Editor.RebuildKeepsConsistent | VisualScriptingTool/Editor/EditorWindow/NodeEditorWindow.cs:341-361 | A rebuild keeps the graph valid and closed, and every output it selects is a node no other node links to. |
| Editor.RemoveKeepsConsistent | VisualScriptingTool/Core/NodeDataSerialisationPart.cs:211-222 | Removing a node keeps the graph valid, closed and shaped. |
| Editor.PlaceNode | VisualScriptingTool/Editor/EditorWindow/NodeEditorWindow.cs:375-380 | Placing a node fails exactly for an unknown type id; otherwise it takes the next id, keeps every node already there and keeps the graph consistent. |
| Editor.PlaceNodeAdds | VisualScriptingTool/Editor/EditorWindow/NodeEditorWindow.cs:375-380 | A placed node is of the requested class at the requested position, controllable and untyped, all its inputs are served, and no existing node changes. |
| Editor.Placed | VisualScriptingTool/Editor/EditorWindow/NodeEditorWindow.cs:378-379 | Creating and positioning a node adds exactly that node, of the requested class at the requested position, under the next id, and keeps the graph valid, closed and shaped. |
| Editor.PlacedConsistent | VisualScriptingTool/Editor/EditorWindow/NodeEditorWindow.cs:378-379 | Moving a just-created node to its position keeps the graph valid, closed and shaped, and adds only that node. |
| Editor.AddUnlinked | VisualScriptingTool/Core/NodeDataSerialisationPart.cs:186-194 | Adding a shaped node without connections under the next id keeps the graph valid, closed and shaped. |
| Editor.EditorCreateNode | VisualScriptingTool/Editor/EditorWindow/NodeEditorWindow.cs:375-383 | Creating from the editor fails for an unknown type id; otherwise it adds the node under the next id, keeps every earlier node, and leaves the rebuilt graph consistent, for any enumeration order of the table. |
| Editor.EditorRemoveNode | VisualScriptingTool/Editor/EditorWindow/NodeEditorWindow.cs:385-391 | Removing a node that is not controllable does nothing at all; removing a controllable one drops exactly that node and leaves the rebuilt graph consistent, for any enumeration order of the table. |
| Editor.RemoveControllable | VisualScriptingTool/Editor/EditorWindow/NodeEditorWindow.cs:403-405 | Removing the selection drops exactly its controllable nodes, changes only the links of the others, and keeps the graph consistent. |
| Editor.RemoveStep | VisualScriptingTool/Editor/EditorWindow/NodeEditorWindow.cs:403-405 | One step of the removal loop drops the current node when it is controllable, and the nodes removed overall are that one together with those of the rest. |
| Editor.RemoveSelected | VisualScriptingTool/Editor/EditorWindow/NodeEditorWindow.cs:400-407 | Removing the selection drops exactly the controllable selected nodes and leaves the rebuilt graph consistent, for any enumeration order of the table. |
| Duplication.CopyKind | VisualScriptingTool/Editor/EditorWindow/Duplicator.cs:53-60 | A copy is of the same class as its original, and a class without value-node, curve, gradient or default-node state is copied with every setting. |
| Duplication.CopyKeepsPlainKinds | VisualScriptingTool/Editor/EditorWindow/Duplicator.cs:56-60 | A node that is not IO, has a null value name and is not used as an external value is copied with all its settings. |
| Duplication.Kept | VisualScriptingTool/Editor/EditorWindow/Duplicator.cs:21-27 | The nodes duplicated are exactly the controllable nodes of the selection, in selection order, each once. |
| Duplication.MinY | VisualScriptingTool/Editor/EditorWindow/Duplicator.cs:32-39 | The least height among the selected nodes, reached by one of them. |
| Duplication.MaxY | VisualScriptingTool/Editor/EditorWindow/Duplicator.cs:32-39 | The greatest height among the selected nodes, reached by one of them. |
| Duplication.Shift | VisualScriptingTool/Editor/EditorWindow/Duplicator.cs:40 | The copies are moved down by at least 64. |
| Duplication.ShiftPlacesBelow | VisualScriptingTool/Editor/EditorWindow/Duplicator.cs:40-55 | Every copy lies strictly below every node of the selection. |
| Duplication.CopyIds | VisualScriptingTool/Editor/EditorWindow/Duplicator.cs:53-54 | Each duplicated node is paired with the id its copy receives, consecutive in selection order, and no other node is paired. |
| Duplication.IdsAfter | VisualScriptingTool/Editor/EditorWindow/Duplicator.cs:76-78 | The new selection is the run of ids following the last id used before duplicating. |
| Duplication.NewIds | VisualScriptingTool/Editor/EditorWindow/Duplicator.cs:53 | The ids the copies take are exactly those just above the last id used. |
| Duplication.NewIdsCons | VisualScriptingTool/Editor/EditorWindow/Duplicator.cs:53 | The ids of n+1 copies are the next id together with the ids of n copies after it. |
| Duplication.Cut | VisualScriptingTool/Editor/EditorWindow/Duplicator.cs:53-72 | The original's links with every connection and remembered default cleared, keeping their number, types and settings. |
| Duplication.Blank | VisualScriptingTool/Editor/EditorWindow/Duplicator.cs:53-60 | A fresh copy has its new id, the original's class and settings, is controllable and untyped, sits one to the right and the shift below, and in the corrected version starts from the original's links, disconnected. |
| Duplication.StartLinks | VisualScriptingTool/Editor/EditorWindow/Duplicator.cs:53 | In the corrected version a copy starts with as many links as its original. |
| Duplication.BlankIsConstructed | VisualScriptingTool/Core/NodeDataSerialisationPart.cs:195-199 | The fresh copy is the node construction gives for the original's class, moved, with its settings copied and, corrected, its links replaced. |
| Duplication.Relink | VisualScriptingTool/Editor/EditorWindow/Duplicator.cs:64-73 | Carrying links over keeps the copy's id and number of links. |
| Duplication.RelinkOnlyLinks | VisualScriptingTool/Editor/EditorWindow/Duplicator.cs:64-73 | Carrying links over changes nothing in the copy except its links. |
| Duplication.RelinkFails | VisualScriptingTool/Editor/EditorWindow/Duplicator.cs:64-73 | Carrying links over throws exactly when a link from a copied node sits at an index the copy does not have. |
| Duplication.RelinkClosedForm | VisualScriptingTool/Editor/EditorWindow/Duplicator.cs:64-73 | After carrying links over, each input of the copy whose original came from a copied node points at that node's copy, and every other input is as it was. |
| Duplication.CorrectedCopy | VisualScriptingTool/Editor/EditorWindow/Duplicator.cs:44-73 | Corrected, a copy never throws and each input keeps its type and settings, points at the copy of its source when that was copied and is unconnected otherwise. |
| Duplication.CopyOf | VisualScriptingTool/Editor/EditorWindow/Duplicator.cs:44-73 | A finished copy carries the id it was given. |
| Duplication.CreateForCopy | VisualScriptingTool/Core/NodeDataSerialisationPart.cs:182-199 | Creating a node of an original's class takes the next id and adds exactly the constructed node. |
| Duplication.CopyResults | VisualScriptingTool/Editor/EditorWindow/Duplicator.cs:44-61 | One copy attempt per duplicated node, the j-th with the j-th new id. |
| Duplication.Collect | VisualScriptingTool/Editor/EditorWindow/Duplicator.cs:44-73 | Gathering the copies yields one copy per attempt when none threw. |
| Duplication.CollectAt | VisualScriptingTool/Editor/EditorWindow/Duplicator.cs:44-73 | Each gathered copy is the result of its own attempt. |
| Duplication.CollectFails | VisualScriptingTool/Editor/EditorWindow/Duplicator.cs:64-73 | One attempt that throws makes the whole duplication throw. |
| Duplication.CollectSucceeds | VisualScriptingTool/Editor/EditorWindow/Duplicator.cs:44-73 | When no attempt throws, the duplication completes. |
| Duplication.CopiesCorrected | VisualScriptingTool/Editor/EditorWindow/Duplicator.cs:44-73 | Corrected, copying the duplicated nodes never throws. |
| Duplication.CopiesNumbered | VisualScriptingTool/Editor/EditorWindow/Duplicator.cs:53 | The copies take consecutive ids after the last id used, in selection order. |
| Duplication.Copies | VisualScriptingTool/Editor/EditorWindow/Duplicator.cs:44-73 | Corrected, the copies always exist, one per duplicated node with consecutive new ids. |
| Duplication.CopiesAt | VisualScriptingTool/Editor/EditorWindow/Duplicator.cs:44-73 | The j-th copy is the copy of the j-th duplicated node under the j-th new id. |
| Duplication.CopiesFail | VisualScriptingTool/Editor/EditorWindow/Duplicator.cs:64-73 | A single copy that throws makes copying throw. |
| Duplication.Insert | VisualScriptingTool/Editor/EditorWindow/Duplicator.cs:53-54 | Inserting the copies adds exactly the new ids, each holding its copy, keeps every existing node, and keeps the graph valid. |
| Duplication.DuplicateWith | VisualScriptingTool/Editor/EditorWindow/Duplicator.cs:17-79 | An empty selection changes nothing; otherwise the graph gains one node per controllable selected node under consecutive new ids, which become the selection, and every existing node is kept. |
| Duplication.DuplicateKept | VisualScriptingTool/Editor/EditorWindow/Duplicator.cs:29-79 | Duplicating the kept nodes adds exactly one new id per node, keeps every existing node, and selects the copies. |
| Duplication.Place | VisualScriptingTool/Editor/EditorWindow/Duplicator.cs:53-78 | The duplication completes exactly when every copy was made; the copies then occupy the new ids and form the selection. |
| Duplication.KeptCopies | VisualScriptingTool/Editor/EditorWindow/Duplicator.cs:44-78 | After duplicating, the j-th new id holds the copy of the j-th duplicated node. |
| Duplication.CopyShape | VisualScriptingTool/Editor/EditorWindow/Duplicator.cs:44-73 | Each corrected copy has its new id, the original's class, is controllable, sits at the shifted position, and has the original's links retargeted to the copies. |
| Duplication.TargetOfKept | VisualScriptingTool/Editor/EditorWindow/Duplicator.cs:70-72 | A link from the m-th duplicated node is retargeted to the m-th copy; a link from any other node is cut. |
| Duplication.DuplicatedCopy | VisualScriptingTool/Editor/EditorWindow/Duplicator.cs:44-78 | After duplicating, the j-th new id holds the corrected copy of the j-th controllable selected node. |
| Duplication.DuplicateCopyShape | VisualScriptingTool/Editor/EditorWindow/Duplicator.cs:44-61 | Each copy has the original's class and number of inputs, is controllable, and lies one to the right and the shift below its original. |
| Duplication.DuplicateCopyLinks | VisualScriptingTool/Editor/EditorWindow/Duplicator.cs:44-73 | A link between two duplicated nodes is carried over to their copies, every other link of a copy is unconnected, and each link keeps its type and settings. |
| Duplication.RetargetedLinks | VisualScriptingTool/Editor/EditorWindow/Duplicator.cs:64-73 | Retargeted links keep type and settings, forget their default, follow copied sources and cut the rest. |
| Duplication.DuplicateAsWritten | VisualScriptingTool/Editor/EditorWindow/Duplicator.cs:17-79 | As written, an empty selection changes nothing, and a duplication that does not throw keeps every existing node and the graph valid. |
| Duplication.Duplicate | VisualScriptingTool/Editor/EditorWindow/Duplicator.cs:17-79 | Corrected, duplication never throws, keeps every existing node and keeps the graph valid. |
| Duplication.FeedsVector | VisualScriptingTool/Editor/EditorWindow/Duplicator.cs:44-72 | The example graph of a float value feeding a two-component vector constructor is valid. |
| Duplication.VectorCopyThrows | VisualScriptingTool/Editor/EditorWindow/Duplicator.cs:53-72 | As written, the constructor's copy starts with no links, so carrying over its link from a copied node throws. |
| Duplication.BothKept | VisualScriptingTool/Editor/EditorWindow/Duplicator.cs:21-27 | Both controllable nodes of the example are duplicated. |
| Duplication.DuplicateAsWrittenThrows | VisualScriptingTool/Editor/EditorWindow/Duplicator.cs:72 | Duplicating the value node together with the constructor it feeds throws as written. |
| Duplication.DuplicateCorrectedRelinks | VisualScriptingTool/Editor/EditorWindow/Duplicator.cs:64-73 | Corrected, the constructor's copy reads from the value node's copy and its second input stays unconnected. |
| Serializer.RoundDiv16 | VisualScriptingTool/Core/Serializer.cs:347 | Rounding a coordinate to its cell lands within half a cell of it, resolves a tie to the even cell, and is exact on a multiple of 16. |
| Serializer.ReadPosition | VisualScriptingTool/Core/Serializer.cs:349-353 | A read position always lies on the 16-pixel grid. |
| Serializer.Snapped | VisualScriptingTool/Core/Serializer.cs:345-353 | Snapping moves a position by at most half a cell each way onto the grid, and leaves a position already on the grid alone. |
| Serializer.PositionRoundTrip | VisualScriptingTool/Core/Serializer.cs:345-353 | A written position whose cell numbers fit an int reads back snapped to its cell. |
| Serializer.NodeIds | VisualScriptingTool/Core/Serializer.cs:41-45 | The node id of each link, in order. |
| Serializer.IdTexts | VisualScriptingTool/Core/Serializer.cs:41-45 | Each link's node id printed in decimal, in order. |
| Serializer.ParseIds | VisualScriptingTool/Core/Serializer.cs:341-342 | Parsing the ids succeeds exactly when every item is an int, and then yields each item's value in order. |
| Serializer.Refilled | VisualScriptingTool/Core/Serializer.cs:331-342 | Filling links from more ids than there are links grows the array to the number of ids, and otherwise keeps its length. |
| Serializer.InputsRoundTrip | VisualScriptingTool/Core/Serializer.cs:41-45 | Filling a fresh node's links from the written ids gives each of the first links the saved link's node id and keeps every later link of the fresh node as it was; no saved links leaves the fresh links unchanged. |
| Serializer.SavedIds | VisualScriptingTool/Core/Serializer.cs:19-25 | The nodes written are exactly the listed nodes other than default constants no link uses, in enumeration order, each once. |
| Serializer.NodeRecord | VisualScriptingTool/Core/Serializer.cs:24-56 | A node's record is never empty. |
| Serializer.Records | VisualScriptingTool/Core/Serializer.cs:22-57 | One record per written node, in order. |
| Serializer.Serialize | VisualScriptingTool/Core/Serializer.cs:17-59 | A table with no written node saves as empty text; otherwise the text of a storable table is non-empty and splits at '#' into exactly one record per written node, in enumeration order. |
| Serializer.RecordsSplit | VisualScriptingTool/Core/Serializer.cs:25-28 | Records of storable nodes joined with '#' give non-empty text that splits back into those records. |
| Serializer.LoadNode | VisualScriptingTool/Core/Serializer.cs:78-89 | Loading a record's items into a fresh node keeps its id and class. |
| Serializer.LoadRecord | VisualScriptingTool/Core/Serializer.cs:67-89 | Loading one record changes only the node table, keeps every node already there, and adds at most one node. |
| Serializer.LoadRecords | VisualScriptingTool/Core/Serializer.cs:65-90 | Loading records in turn changes only the node table, keeps every node already there, and adds at most one node per record. |
| Serializer.DeserializeAsWritten | VisualScriptingTool/Core/Serializer.cs:60-91 | As written, text that splits into fewer than two records loads an empty table; any load changes only the node table and adds at most one node per record. |
| Serializer.Deserialize | VisualScriptingTool/Core/Serializer.cs:60-91 | With the corrected guard, empty text loads an empty table; any load changes only the node table and adds at most one node per record. |
| Serializer.TypeIdPlain | VisualScriptingTool/Core/NodeCollector.cs:70-73 | No type id contains either separator, so it stays one item of its record. |
| Serializer.ClassNamesPlain | VisualScriptingTool/Nodes/DefaultValues.cs:66-219 | No value-node or default-node class name contains either separator. |
| Serializer.CreateKnown | VisualScriptingTool/Core/Serializer.cs:69-70 | Loading a record of a registered class under a free id adds exactly the freshly constructed node. |
| Serializer.DefaultRecordLines | VisualScriptingTool/Core/Serializer.cs:29-37 | A default constant's record is its type id, its node id and then its own payload's items. |
| Serializer.DefaultRecordRoundTrip | VisualScriptingTool/Core/Serializer.cs:69-75 | Loading a default constant's record restores the constant under its id. |
| Serializer.PrintedAvoids | VisualScriptingTool/Core/Serializer.cs:109-150 | A printed number contains no separator. |
| Serializer.PositionTextAvoids | VisualScriptingTool/Core/Serializer.cs:345-348 | A written position contains neither separator. |
| Serializer.InputsTextAvoids | VisualScriptingTool/Core/Serializer.cs:41-45 | The written link ids contain neither separator. |
| Serializer.FieldsTextSplits | VisualScriptingTool/Core/Serializer.cs:48-56 | The kept public fields, once written, split back into exactly their texts and contain no record separator. |
| Serializer.NodeRecordLines | VisualScriptingTool/Core/Serializer.cs:29-56 | A node's record splits into its type id, its node id, its position, its link ids and its fields' texts. |
| Serializer.LoadNodeRoundTrip | VisualScriptingTool/Core/Serializer.cs:78-89 | Loading a node's written items into a fresh node of its class restores its settings, snaps its position and restores its links' node ids. |
| Serializer.NodeRecordRoundTrip | VisualScriptingTool/Core/Serializer.cs:67-89 | Loading a storable node's record adds it back under its id as a fresh node with its settings, snapped position and link ids. |
| Serializer.RecordRoundTrip | VisualScriptingTool/Core/Serializer.cs:24-89 | Any storable node's record loads back as that node reloaded. |
| Serializer.RecordsRoundTrip | VisualScriptingTool/Core/Serializer.cs:65-90 | Loading the records of distinct storable nodes adds each of them back, reloaded. |
| Serializer.LoadedContents | VisualScriptingTool/Core/Serializer.cs:65-90 | After loading, the table holds exactly what it held plus the loaded ids, each loaded id holding its reloaded node. |
| Serializer.JoinNone | VisualScriptingTool/Core/Serializer.cs:20-58 | Writing no records gives the empty text. |
| Serializer.JoinNonEmpty | VisualScriptingTool/Core/Serializer.cs:20-58 | Writing at least one record gives non-empty text. |
| Serializer.SaveLoadRoundTrip | VisualScriptingTool/Core/Serializer.cs:17-91 | With the corrected guard, loading a saved graph restores exactly the written nodes, each reloaded with its null strings read back empty, and drops only the default constants no link uses. |
| Serializer.LoadedSaved | VisualScriptingTool/Core/Serializer.cs:65-90 | Reloading the written ids into an empty table gives exactly the written nodes, reloaded. |
| Serializer.RecordAvoidsHash | VisualScriptingTool/Core/Serializer.cs:24-56 | A storable node's record contains no record separator. |
| Serializer.LoadersAgree | VisualScriptingTool/Core/Serializer.cs:62-64 | The written and corrected loaders agree on empty text and on text of two or more records. |
| Serializer.OneNodeLostAsWritten | VisualScriptingTool/Core/Serializer.cs:63-64 | As written, a graph that saves exactly one node loads back empty, while the corrected loader restores that node. |
| Serializer.SingleFloatNodeLost | VisualScriptingTool/Core/Serializer.cs:63-64 | A graph holding one float value node loads back with no nodes as written, and with that node when corrected. |
| NodeFields.JoinPrefix | VisualScriptingTool/Core/Serializer.cs:53-54 | Joining texts with a separator is the first text followed by each later text with the separator in front. |
| NodeFields.PrefixedFrom | VisualScriptingTool/Core/Serializer.cs:49-56 | Past reflection index 0, the fields are written as the kept fields' texts in order, each preceded by the item separator. |
| NodeFields.NoneKept | VisualScriptingTool/Core/Serializer.cs:51-52 | A field list with nothing kept writes no texts. |
| NodeFields.AlignedText | VisualScriptingTool/Core/Serializer.cs:49-56 | When the field at reflection index 0 is kept, or nothing is, the written fields are exactly the kept texts joined by the item separator. |
| NodeFields.EveryLayoutAligned | VisualScriptingTool/Core/Serializer.cs:48-56 | Every node class's first public field is kept, so no class's written fields start with a stray separator. |
| NodeFields.ReadInto | VisualScriptingTool/Core/Serializer.cs:82-89 | Reading fields back keeps the class's field list, each field of its declared type. |
| NodeFields.ReadIntoRoundTrip | VisualScriptingTool/Core/Serializer.cs:48-89 | Reading the kept texts of a node's fields into a node of the same class restores every field, whatever items follow. |
| NodeFields.MisalignedLayoutShifts | VisualScriptingTool/Core/Serializer.cs:53 | Were the field at index 0 skipped, the written text would start with a separator and a following bool would read back from the empty item as false. |
| NodeFields.EnumAt | VisualScriptingTool/Core/Serializer.cs:158-159 | An enumeration setting is read only from a kept enumeration field. |
| NodeFields.ValueAt | VisualScriptingTool/Nodes/Values.cs:60-279 | A payload read from a field has the requested type. |
| NodeFields.FromSlots | VisualScriptingTool/Core/Serializer.cs:82-89 | Settings rebuilt from fields belong to the same class. |
| NodeFields.FromOperationSlots | VisualScriptingTool/Nodes/Operations.cs:29-688 | An operation's settings rebuilt from its fields belong to the same class. |
| NodeFields.FromOtherSlots | VisualScriptingTool/Nodes/Other.cs:150-473 | A motion, timer or random node's settings rebuilt from its fields belong to the same class. |
| NodeFields.FromValueSlots | VisualScriptingTool/Nodes/Values.cs:10-511 | A value, curve, gradient or default node's settings rebuilt from its fields belong to the same class. |
| NodeFields.ReadKind | VisualScriptingTool/Core/Serializer.cs:82-89 | Reading a record's fields into a fresh node keeps its class. |
| NodeFields.SameLayoutAppend | VisualScriptingTool/Core/Serializer.cs:48 | Field lists alike in their own part and sharing the base-class part are alike. |
| NodeFields.FreshSameLayout | VisualScriptingTool/Core/Serializer.cs:82 | A freshly constructed node has the same field list as any node of its class. |
| NodeFields.StorableRestorable | VisualScriptingTool/Core/Serializer.cs:109-178 | Every field of a storable node reads back as written. |
| NodeFields.LoadedKind | VisualScriptingTool/Core/Serializer.cs:151-163 | A load keeps the class and leaves no string null: a null string, written as nothing, reads back as the empty string. |
| NodeFields.LoadedKindUnchanged | VisualScriptingTool/Core/Serializer.cs:109-163 | A load restores a kind unchanged exactly when none of its strings is null, so a fresh swizzle, value, curve or gradient node comes back changed. |
| NodeFields.FromOwnSlots | VisualScriptingTool/Core/Serializer.cs:82-89 | Rebuilding a node's settings from its own fields restores them. |
| NodeFields.FromOwnOperationSlots | VisualScriptingTool/Nodes/Operations.cs:29-688 | An operation's settings are restored from its own fields. |
| NodeFields.FromOwnOtherSlots | VisualScriptingTool/Nodes/Other.cs:150-473 | A motion, timer or random node's settings are restored from its own fields. |
| NodeFields.FromOwnValueSlots | VisualScriptingTool/Nodes/Values.cs:10-511 | A value, curve, gradient or default node's settings are restored from its own fields. |
| NodeFields.KindRoundTrip | VisualScriptingTool/Core/Serializer.cs:48-89 | Reading a storable node's written fields into a fresh node of its class restores its settings, with null strings read back empty, whatever items follow; with no null string it restores the kind exactly. |
| NodeFields.KeptTextsAvoid | VisualScriptingTool/Core/Serializer.cs:48-56 | No written field of a storable node contains either separator. |
| NodeFields.KeptTextsFrom | VisualScriptingTool/Core/Serializer.cs:48-56 | When no kept field's text holds a character, no written text does. |
| HostInput.HostValueOf | VisualScriptingTool/Nodes/Values.cs:51-54 | An external node's value is an element of the array of its own list. |
| HostInput.WithHostValue | VisualScriptingTool/Nodes/Values.cs:51-54 | Setting an external node's value keeps its list, name and external flag, and the node then yields exactly that value. |
| HostInput.WriteOwnValue | VisualScriptingTool/Nodes/Values.cs:51-54 | Setting an external node to the value it yields changes nothing. |
| HostInput.ReadHost | VisualScriptingTool/Complement/NodeDataInput.cs:57 | Reading a listed node succeeds exactly when the id names a node of that list's class, and yields an element of the list's type; otherwise it is a null reference or an invalid cast. |
| HostInput.WriteHost | VisualScriptingTool/Complement/NodeDataInput.cs:81 | Writing a listed node succeeds exactly when reading it would, after which it reads back the value written and no other node changes. |
| HostInput.WriteIsSetValue | VisualScriptingTool/Core/NodeDataSerialisationPart.cs:25-100 | Writing a plain value through the host's interface succeeds exactly when the graph's own setter does, and has the same effect. |
| HostInput.ReadAll | VisualScriptingTool/Complement/NodeDataInput.cs:56-57 | Reading a whole list succeeds exactly when every entry can be read, and yields each entry's value in order. |
| HostInput.FixArray | VisualScriptingTool/Complement/NodeDataInput.cs:47-60 | An array already of the list's length is kept as it is; otherwise it is resized to the list, keeping the common prefix and reading each new element from its node, and that read is the only way it fails. |
| HostInput.EveryKindFixed | VisualScriptingTool/Complement/NodeDataInput.cs:36-44 | Initialisation resizes every one of the nine arrays. |
| HostInput.FixEach | VisualScriptingTool/Complement/NodeDataInput.cs:36-44 | Resizing the arrays in turn succeeds exactly when each resize does, sets each named array to its resized form, and leaves the others alone. |
| HostInput.Initialize | VisualScriptingTool/Complement/NodeDataInput.cs:32-45 | Without lists nothing happens; otherwise every array is resized to its list, and it fails exactly when some resize does. |
| HostInput.InitializeInput | VisualScriptingTool/Complement/NodeDataInput.cs:24-30 | Binding to a graph always ends with lists, keeps the graph's own lists when it has them, and leaves every array present and the length of its list. |
| HostInput.WriteAll | VisualScriptingTool/Complement/NodeDataInput.cs:80-81 | Writing values to a list's nodes succeeds exactly when every entry can be read, and changes only those nodes. |
| HostInput.RewritesKeepReadable | VisualScriptingTool/Complement/NodeDataInput.cs:80-81 | Rewriting values never changes which ids can be read under which list. |
| HostInput.ReadableStep | VisualScriptingTool/Complement/NodeDataInput.cs:80-81 | After writing the first entry, the whole list is readable exactly when the rest of it is. |
| HostInput.Set | VisualScriptingTool/Complement/NodeDataInput.cs:77-82 | Pushing a null array is a null reference; otherwise only the listed nodes change. |
| HostInput.SetPushesPrefix | VisualScriptingTool/Complement/NodeDataInput.cs:77-82 | Pushing an array writes its first min(array length, list length) elements to the listed nodes in order: it succeeds exactly when those entries can be read, and each of those nodes then reads back its element when no id is listed twice. |
| HostInput.WriteAllLands | VisualScriptingTool/Complement/NodeDataInput.cs:80-81 | With no node listed twice, each written node reads back the element written to it. |
| HostInput.WriteAllFirst | VisualScriptingTool/Complement/NodeDataInput.cs:80-81 | Writing a list is writing its first entry and then the rest, and the first entry reads back its value. |
| HostInput.RewrittenElsewhere | VisualScriptingTool/Complement/NodeDataInput.cs:80-81 | Writing some nodes does not change what any other node reads. |
| HostInput.EveryKindPushed | VisualScriptingTool/Complement/NodeDataInput.cs:66-74 | Pushing values back covers every one of the nine arrays. |
| HostInput.ListedIds | VisualScriptingTool/Complement/NodeDataInput.cs:66-74 | The ids of the named lists: every listed id, and nothing else. |
| HostInput.SetEach | VisualScriptingTool/Complement/NodeDataInput.cs:66-74 | Pushing the arrays in turn succeeds only when each pushed array exists, and then changes only nodes of the pushed lists. |
| HostInput.SetTo | VisualScriptingTool/Complement/NodeDataInput.cs:62-75 | Without lists nothing changes; otherwise a push succeeds only when all nine arrays exist, and changes only nodes of the lists. |
| HostInput.ReadAllFits | VisualScriptingTool/Complement/NodeDataInput.cs:56-57 | Every value read from a list is an element of that list's type. |
| HostInput.FixArrayFits | VisualScriptingTool/Complement/NodeDataInput.cs:47-60 | Resizing an array of the list's type keeps it of that type. |
| HostInput.InitializeWellTyped | VisualScriptingTool/Complement/NodeDataInput.cs:32-45 | Initialisation keeps every array of its list's element type. |
| HostInput.FixFromNothing | VisualScriptingTool/Complement/NodeDataInput.cs:47-60 | Resizing a null array reads the whole list from its nodes. |
| HostInput.WriteBack | VisualScriptingTool/Complement/NodeDataInput.cs:77-82 | Writing back the values just read from a list leaves the graph unchanged. |
| HostInput.SetEachUnchanged | VisualScriptingTool/Complement/NodeDataInput.cs:66-74 | Pushing arrays that hold exactly what their lists' nodes hold leaves the graph unchanged. |
| HostInput.InitializeThenSetTo | VisualScriptingTool/Complement/NodeDataInput.cs:24-82 | On a valid graph, binding a host with no arrays always succeeds, leaves every array of its list's type, and pushing them straight back changes nothing. |
| Externals.ListKind | VisualScriptingTool/Complement/NodeDataExternals.cs:52-73 | Exactly the seven value classes, the curve and the gradient have a list; each value class goes to the list of its own type, the curve to the curve list and the gradient to the gradient list, so the final throw cannot be reached. |
| Externals.InitializeFrom | VisualScriptingTool/Complement/NodeDataExternals.cs:20-50 | Every list exists afterwards and holds what one pass over the table in enumeration order collects, whatever the lists held before. |
| Externals.CollectContents | VisualScriptingTool/Complement/NodeDataExternals.cs:44-49 | A pass collects only nodes of the class marked as external, each with its own id and value name, collects every such node it visits, and lists no id twice when it visits none twice. |
| Externals.Collect | VisualScriptingTool/Complement/NodeDataExternals.cs:44-49 | A pass collects at most one entry per visited id, and a first visited node of the class comes first in the list. |
| Externals.ExternalsContents | VisualScriptingTool/Complement/NodeDataExternals.cs:20-50 | On a valid graph, a node appears in a class's list exactly when it is of that class and marked as external; it appears once, with its own id and value name. |
| GridMesh.Clamp | Samples/NodeMeshGenerator.cs:37-38 | A size becomes at least one and at least itself: it is kept when positive and becomes one otherwise. |
| GridMesh.SampleOfVertex | Samples/NodeMeshGenerator.cs:92-101 | The evaluation at the slot of vertex (x, y) receives exactly the coordinates x and y, and Start is set for the corner (0, 0) alone. |
| GridMesh.Samples | Samples/NodeMeshGenerator.cs:69-111 | The vertex loop makes one evaluation per vertex of the (width+1) by (height+1) grid, and slot i is evaluated at its own column and row with Start set only on slot 0. |
| GridMesh.SamplesCoverGrid | Samples/NodeMeshGenerator.cs:92-111 | Every vertex of the grid has a slot in the arrays and is evaluated there with its own coordinates, and Start is true for the first evaluation and no other. |
| GridMesh.VertexIndexBelow | Samples/NodeMeshGenerator.cs:73 | Every vertex of the grid has a slot within the vertex count. |
| GridMesh.CornerArithmetic | Samples/NodeMeshGenerator.cs:124-127 | The offsets one, the row width and the row width plus one from a cell's first vertex name its right, lower and lower right corners. |
| GridMesh.Triangles | Samples/NodeMeshGenerator.cs:119-136 | The triangle list has six indices per cell, and slot i holds corner i mod 6 of cell i div 6, cells taken row by row, each cell split into the two triangles along its diagonal. |
| GridMesh.TrianglesInRange | Samples/NodeMeshGenerator.cs:119-136 | Every index in the triangle list names a vertex of the grid. |
| GridMesh.Generate | Samples/NodeMeshGenerator.cs:35-140 | Without a connected Position output the mesh is cleared; otherwise it has one evaluation per vertex of the clamped grid, with Start on the first alone, and six in-range triangle indices per cell. |
| ParticleMesh.Pattern | Samples/NodeParticleMeshGenerator.cs:94-96 | An item without a sprite uses the quad's triangle list. |
| ParticleMesh.QuadWellFormed | Samples/NodeParticleMeshGenerator.cs:141-162 | The quad fallback is the triangles (0, 2, 3) and (3, 1, 0), and each index names one of its four vertices. |
| ParticleMesh.TotalsAgainstWritten | Samples/NodeParticleMeshGenerator.cs:62-73 | The counted vertex and triangle totals never exceed what the write loop writes, and equal it exactly when no item of non-zero size has a negative count. |
| ParticleMesh.ItemAgainstWritten | Samples/NodeParticleMeshGenerator.cs:71-72 | An item adds at most what its particles write, and exactly that unless its count is negative and its size is not zero. |
| ParticleMesh.GenerateSucceeds | Samples/NodeParticleMeshGenerator.cs:62-119 | With Position connected, generation succeeds exactly when every item has a non-negative count or has neither vertices nor triangles; a negative count otherwise makes an array too small or of negative size. |
| ParticleMesh.Generate | Samples/NodeParticleMeshGenerator.cs:54-119 | Without a connected Position output the mesh is cleared; with one, generation succeeds whenever no count is negative, and a generated mesh has exactly the counted triangle and vertex totals. |
| ParticleMesh.GenerateFillsArrays | Samples/NodeParticleMeshGenerator.cs:76-119 | A successful generation fills the triangle array and the vertex arrays exactly, to the counted totals. |
| ParticleMesh.EmitSizes | Samples/NodeParticleMeshGenerator.cs:90-119 | The write loop writes as many triangle indices and vertex evaluations as its particles hold, item after item. |
| ParticleMesh.ItemSizes | Samples/NodeParticleMeshGenerator.cs:98-118 | Each particle of an item writes one triangle index per pattern entry and one vertex evaluation per vertex. |
| ParticleMesh.ItemTrianglesOffset | Samples/NodeParticleMeshGenerator.cs:98-104 | Index t of particle i is the pattern's index t shifted by the running vertex index, which has grown by the item's vertex count for each earlier particle. |
| ParticleMesh.ItemUpdatesFirstVertex | Samples/NodeParticleMeshGenerator.cs:104-108 | Update Particle is set on exactly the first vertex of each particle. |
| ParticleMesh.EmitInRange | Samples/NodeParticleMeshGenerator.cs:90-119 | When every pattern names only its own vertices, every index written from a running start lies within the vertices written from that start. |
| ParticleMesh.ItemInRange | Samples/NodeParticleMeshGenerator.cs:98-104 | The particles of a well-formed item only name the vertices they write themselves. |
| ParticleMesh.GenerateInRange | Samples/NodeParticleMeshGenerator.cs:54-124 | When every pattern names only its own vertices, every triangle index of a generated mesh names one of its vertices. |

## Left out

- Editor drawing, menus, dragging, selection handling and undo: these are IMGUI and asset-database side effects. The connect rule of link dragging is `NodeCollector.ValidateTypes`, which the model does cover.
- The reflection-driven input and output nodes (`VisualScriptingTool/Nodes/Other.cs:8-148`) and `ReflectedValue`: these emit IL at run time and fall outside a pure model.
- The code generators (`FunctionGenerator`, the `Generate*` builders in `MathNode.cs`, `GenerateSwizzles`): they produce source text, not runtime behaviour.
- Floating-point numerics are left out: every `Mathf` call, lerps, HSV conversion, the vector and quaternion evaluators, Perlin interpolation and gradient dot products, and the number formatting of the serialiser. Floats are carried as opaque text tokens, and the evaluators of the arithmetic nodes appear only through their type rules and accessor shapes.
- The Spring, Delta and Timer evaluators compute with floats and `Time.deltaTime`, so only their type rules, the Timer reset order and the Dozer hold, reset and freeze logic are modelled.
- Unity's random generator, `Time.time`, and the contents of Perlin's static gradient table are not modelled. Frame numbers are parameters. The table's contents play no part in the index arithmetic that is modelled.
- Asset I/O in the samples (texture and mipmap generators, the ring-mesh preview, mesh assignment, `mesh.Clear` and `RecalculateBounds`): these are side effects on Unity objects. The mesh model records only which evaluations happen and which indices are written.
- `JsonUtility` is not part of this model. The serialiser's fallback for fields of other types goes through it, so each node kind's serialised fields are given as an explicit ordered list of tagged values in place of the reflective field walk.
- Enum fields holding values outside their declared range are not modelled: enum fields are closed Dafny datatypes.
- After a C# exception the model stops at a `Failure`. It does not model whatever partial state the source leaves behind. The one exception the model does not raise on its main path is the null-reference throw of an unset swizzle mask (`VisualScriptingTool/Nodes/Operations.cs:962`): the type pass and everything built on it use the corrected swizzle rule, and the as-written passes (`Typing.UpdateTypesAsWritten`, `Typing.UpdateTypesLightAsWritten`) raise it instead.
- Node positions are whole pixels, so the rounding of fractional coordinates in the position codec is not modelled.
- Counters that Unity restores on deserialisation (`_lastId`, `_lastDefaultNodeId` kept in serialized fields) are carried over from the graph loaded into, as the loader leaves them untouched.
- `NodeDataExternals.InitializeFrom` returns early when the node map is `null`. A graph always has a map in this model, so that branch is absent.
- `NodeDataExternals.GetArray` has a final throw. It is not modelled as a failure, because `Externals.ListKind` shows that every external value class has a list.
- The vertex evaluations of the mesh samples divide grid coordinates by the size in floats. The model records the integer coordinates and flags fed to the graph, not the quotients.
- The mesh samples compute sizes in C# `int`, and Int32 overflow of those sizes is not modelled. Sizes are unbounded integers, so grids too large for 32-bit sizes are outside the model.
- `OperationNodes.ToLowerAscii` lower-cases ASCII letters only. C# `ToLower` is culture-sensitive, but the swizzle alphabet is ASCII, so only ASCII letters can change the result.
- The `LookRotation` evaluator reads four-component accessors from inputs its type rule requires to be three-component. Only the type rule is modelled.
- A swizzle on an `AutoValue` or `AutoVector` input has no component count. The swizzle parser takes the component bound as a natural-number parameter of at most 3.
- Typing.UpdateTypesLight: the source recurses without bound on a cycle; the model takes a `fuel` depth and returns `None` when it runs out, so its agreement with the cycle-protected pass is proved only for acyclic graphs given enough fuel.
- Processors.GetNodeProcessor: the source recurses without bound through a cycle; the model takes a `fuel` depth and reports `StackOverflow` when it runs out.
- CurveCodec.GradientRoundTrip: requires at least one colour key and one alpha key, as every Unity gradient holds.
- HostInput.Set: its own contract names only the nodes it may change; which values land is stated separately by `HostInput.SetPushesPrefix`.
- HostInput.WithHostValue: a curve or gradient node keeps the host's own object in C# (`VisualScriptingTool/Nodes/Values.cs:357-360` and `:409-412`), so a later change to the host's curve shows through the node; values here are immutable, so that sharing is not modelled.
- HostInput.WriteHost: stores a copy of the host's curve or gradient value, not a shared object, for the same reason.
- HostInput.SetTo: pushes curve and gradient values by value; the sharing between host array and node that C# sets up is not modelled.
- Text.ParseInt: the sign characters are the invariant culture's `+` and `-`; another culture's signs, and the trailing U+0000 characters .NET also skips, are not modelled.
- Text.Join: its own contract states only the empty case and the first part; what the joined text splits back into is stated by `Text.SplitJoin`.
- Editor.RebuildGraph: the host's `SetDirty`, `OnValidate` call and inspector repaint after the rebuild (`VisualScriptingTool/Editor/EditorWindow/NodeEditorWindow.cs:366-371`) are editor side effects and are not modelled.
- OperationNodes.BoolEvaluate: takes both inputs as values. When `||` or `&&` skips input B (`VisualScriptingTool/Nodes/Operations.cs:197-201`), a side effect of evaluating B, such as an upstream trigger storing its last value, does not happen in the source; the model only records which input is called (`OperationNodes.CallsB`, `OperationNodes.SkippedBIsIrrelevant`).
- Nodes.OperationRuleType: its swizzle case reads an unset mask as empty, where `ValidateSwizzle` throws on it (`VisualScriptingTool/Nodes/Operations.cs:962`); `Nodes.CheckInputsAsWritten` is the version that throws.
- Nodes.RuleType: reads an unset swizzle mask as empty, where the source throws at `VisualScriptingTool/Nodes/Operations.cs:962`; `Nodes.CheckInputsAsWritten` throws there.
- Nodes.RuleNode: stores `x` for an unset swizzle mask on a value input, where the source throws before storing anything; `Nodes.CheckInputsAsWritten` throws there.
- Nodes.CheckInputsAndGetType: returns a float read from `x` for a swizzle with an unset mask on a value input, where the source throws; `Nodes.CheckInputsAsWritten` is the as-written check and agrees everywhere else.
- Typing.Settle: applies the corrected swizzle rule and so never throws; `Typing.SettleAsWritten` throws where the source does.
- Typing.UpdateTypes: always yields a type, even where the source's pass throws on a swizzle with an unset mask fed a value; `Typing.UpdateTypesAsWritten` throws there and agrees otherwise, and `Typing.UnsetMaskPassThrows` shows the case.
- Typing.InputTypes: types an input fed through a swizzle with an unset mask, where the source throws; `Typing.InputTypesAsWritten` throws there.
- Typing.UpdateTypesLight: reads an unset swizzle mask as empty, where the source throws; `Typing.UpdateTypesLightAsWritten` throws there and agrees otherwise.
- Typing.InputTypesLight: inherits the corrected swizzle rule; `Typing.InputTypesLightAsWritten` throws where the source does.
- Processors.GetNodeProcessor: types nodes with the corrected light pass, so a swizzle with an unset mask on a value input does not throw here; on a graph whose masks are all set this is the source's behaviour, by `Typing.UpdateTypesLightAsWritten`.
- Processors.Prepare: compiles through `Processors.GetNodeProcessor`, so it does not throw on an unset swizzle mask either.
- Processors.EndInputInit: prepares through `Processors.Prepare`, so it does not throw on an unset swizzle mask either.
- Editor.AdmitSink: types each dead end with the corrected full pass, so an unset swizzle mask does not throw; on a graph whose masks are all set this is the source's behaviour, by `Typing.UpdateTypesAsWritten`.
- Editor.RebuildGraph: admits its dead ends through `Editor.AdmitSink`, so it does not throw on an unset swizzle mask either.
- Editor.EditorCreateNode: rebuilds through `Editor.RebuildGraph`, so it does not throw on an unset swizzle mask either.
- Editor.EditorRemoveNode: rebuilds through `Editor.RebuildGraph`, so it does not throw on an unset swizzle mask either.
- Editor.RemoveSelected: rebuilds through `Editor.RebuildGraph`, so it does not throw on an unset swizzle mask either.
- Externals.Collect: its own contract states only the size bound and the head of the list; the full contents are stated by `Externals.CollectContents`.

## Findings

| source | as written | input that shows it | evidently intended | confidence | as-written member | corrected member |
|---|---|---|---|---|---|---|
| VisualScriptingTool/Nodes/DefaultValues.cs:30-32 | The remembered default id is computed, but the lookup reads the link's current id, which is -1 for an unconnected link. | A float input left unconnected whose last default, node -3, still exists: it is given a new default node -4. | Look up the remembered id, so the link is reattached to node -3 and nothing is created. | not executed | Defaults.ForgottenDefaultExample | Defaults.ToDefaultRestoresLastDefault |
| VisualScriptingTool/Core/Serializer.cs:64 | Text that splits into fewer than two records loads as an empty table. | A table holding one float value node is saved as a single record, and loading it back yields no nodes. | Return early only on empty text, so a single record is loaded. | not executed | Serializer.OneNodeLostAsWritten | Serializer.SaveLoadRoundTrip |
| VisualScriptingTool/Nodes/Operations.cs:962 | No constructor sets the swizzle mask, and `ValidateSwizzle` calls `ToLower` on it. | A swizzle node is created and a Vector3 is connected to it before its mask is edited or the graph reloaded: the type pass throws a null-reference error. | An unset mask behaves as an empty one, which normalises to `x`. | not executed | Typing.UnsetMaskPassThrows | OperationNodes.SwizzleTypeOrEmpty |
| VisualScriptingTool/Editor/EditorWindow/Duplicator.cs:72 | A copy starts with its constructor's links, and the carried-over link is written at the original's input index. | A float value node 2 feeding input 0 of a Vector2 constructor node 3, both selected: the constructor's copy has no links, so index 0 is out of range. | The copy starts with as many links as the original, so the copy of node 3 reads from the copy of node 2. | not executed | Duplication.DuplicateAsWrittenThrows | Duplication.DuplicateCorrectedRelinks |
