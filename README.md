# quik_math core in Dafny

This project models the core of quik_math, a header-only C++ maths library, and proves properties of that model:

- the scalar helpers of `qm` in `include/functions.hpp`: `max`, `min`, `clamp`, the list forms of `max` and `min`, and `kb`;
- the vector templates `vec2`, `vec3` and `vec4` in `include/vec2.hpp`, `include/vec3.hpp` and `include/vec4.hpp`: constructors, `operator[]`, arithmetic, dot, cross and Hadamard products, compound assignments, increment and decrement, comparisons and swizzles;
- `Rect` in `include/rect.hpp`: its constructors, corners, area, `intersects`, `unionWith`, `contains`, `set` and `clampPoint`;
- the PCG32 generator `Random` in `include/random.hpp`: `rand()`, `rand(min, max)`, the two string generators, `coinFlip`, `getRandomElement` and `seed`.

Layout, one module per file:

| file | module | models |
|---|---|---|
| `wrappers.dfy` | `Wrappers` | `Result<T>`, so that a thrown `std::invalid_argument` becomes `Err(message)` |
| `cpp_int.dfy` | `CppInt` | C++ integer semantics on unbounded integers: truncating `/` and `%`, conversion of a `real` to an integer type, two's-complement `&`, `|` and `^`, and shifts |
| `scalar.dfy` | `Scalar` | `functions.hpp` |
| `vec_types.dfy` | `VecTypes` | the value types `Vec2`, `Vec3` and `Vec4`, shared by all three vector modules, and a reference lexicographic order |
| `vec2.dfy`, `vec3.dfy`, `vec4.dfy` | `Vector2`, `Vector3`, `Vector4` | each template: free and `const` members as functions on the value type, and the members that update a vector in place as methods of a class `VecNVar` with fields `x`, `y`, ... |
| `rect.dfy` | `Rects` | `Rect` as a value, and `RectVar` for `set` |
| `random.dfy` | `PcgRandom` | the PCG state and its step as functions, and the class `Random`, whose methods advance the state |

Modelling choices:

- Vector components, `Rect` sides and the scalar operands of the integer operators are unbounded `int`s. The `float` scalar of `operator*` and `operator/` is a `real`. The product or quotient is converted back to `T` by truncation toward zero (`CppInt.TruncReal`), as `static_cast` to an integer type does.
- `/=` and `%=` use C++'s truncating division and remainder, not Dafny's Euclidean ones. An integer division or remainder by zero is undefined behaviour in C++, so those methods require a nonzero divisor.
- `&`, `|` and `^` act on the infinite two's-complement expansion. `<<` is a multiplication by 2^n, and `>>` is a division by 2^n that rounds down, as C++20 defines them for signed operands. A shift amount must be non-negative.
- The PCG state and increment are 64-bit words, held as integers below 2^64, and the step is taken modulo 2^64. This assumes an LP64 platform: `qm::u_least64` is `unsigned long` (`include/types.hpp:31`), which has only 32 bits on LLP64 platforms such as 64-bit Windows. The output permutation (xorshift, then a rotate to the right by the top five bits) is computed on bit-vectors.
- `operator[]` follows the `switch` of the source. An index at or beyond the component count reaches the `default:` label, which falls through to `case 0` and reads `x`. The method that writes through it (`SetComponent`) does the same.
- Free templates whose behaviour departs from their evident intent are modelled twice: once as written (`...AsWritten`) and once as intended. The rest of the model uses the intended definition; see "## Findings".
- `Rect(const Vec4 &)` is documented as taking (top, bottom, left, right). Its code instead takes the vertical sides from `y` and `w` and the horizontal ones from `x` and `z`. The model follows the code (`Rects.ConstructorsAgree`).

## Model

| member | source | states |
|---|---|---|
| CppInt.TruncDiv | include/vec2.hpp:181-186 | definition of integer `/` and `/=`, truncating toward zero; specified by CppInt.DivRemIdentity and CppInt.TruncRem |
| CppInt.TruncReal | include/vec2.hpp:89-89 | definition of the conversion of a scaled component back to an integer T; specified by CppInt.TruncRealBounds |
| CppInt.BitAnd | include/vec2.hpp:244-249 | definition of two's-complement `&`; specified by CppInt.BitAndSelf |
| CppInt.BitOr | include/vec2.hpp:261-266 | definition of two's-complement `|`; specified by CppInt.BitOrSelf |
| CppInt.BitXor | include/vec2.hpp:278-283 | definition of two's-complement `^`; specified by CppInt.BitXorSelf and CppInt.BitXorInvolutive |
| CppInt.ShiftLeft | include/vec2.hpp:295-300 | definition of `<<` as multiplication by 2^n; specified by CppInt.ShiftRoundTrip |
| CppInt.ShiftRight | include/vec2.hpp:312-317 | definition of `>>` as division by 2^n rounding down; specified by CppInt.ShiftRoundTrip and CppInt.MulDivCancel |
| Scalar.Max | include/functions.hpp:237-241 | the result is at least both arguments and is one of them |
| Scalar.Min | include/functions.hpp:259-263 | the result is at most both arguments and is one of them |
| Scalar.Clamp | include/functions.hpp:342-354 | with ordered bounds the result lies between them; a value already in range comes back unchanged; the result is always the value or one of the bounds |
| Scalar.ClampIdempotent | include/functions.hpp:342-354 | with ordered bounds, clamping a clamped value changes nothing |
| Scalar.ClampReversedNotIdempotent | include/functions.hpp:342-354 | with reversed bounds (2, 1) clamping 0 gives 2 and clamping again gives 1: idempotence needs ordered bounds |
| Scalar.ClampIsMaxMin | include/functions.hpp:342-354 | with ordered bounds, clamp equals min(max(value, minVal), maxVal), an independent reference |
| Scalar.MaxOf | include/functions.hpp:281-291 | on a non-empty list the accumulator loop returns an element of the list that is at least every element |
| Scalar.MinOf | include/functions.hpp:309-319 | on a non-empty list the accumulator loop returns an element of the list that is at most every element |
| Scalar.Kb | include/functions.hpp:103-107 | the result is a 64-bit unsigned word congruent to 1024 * x modulo 2^64, equal to 1024 * x when that fits, and a multiple of 1024 |
| CppInt.TruncRem | include/vec2.hpp:228-233 | the C++ remainder used by `%=`: smaller in magnitude than the divisor and with the sign of the dividend |
| CppInt.DivRemIdentity | include/vec2.hpp:228-233 | truncating quotient times divisor plus remainder gives back the dividend, as C++ requires of `/=` and `%=` |
| CppInt.TruncRealBounds | include/vec2.hpp:89 | converting a scaled component back to T truncates: the result is within one of the value, on the side of zero, with its sign |
| CppInt.TruncRealOfInt | include/vec2.hpp:89 | a value that is already an integer converts to itself |
| CppInt.TruncOfProduct | include/vec2.hpp:89 | an integer scaled by an integer-valued scalar converts back to the exact product |
| CppInt.TruncOfQuotient | include/vec2.hpp:91-99 | an exact multiple divided by its nonzero factor converts back to the other factor |
| CppInt.Pow2 | include/vec2.hpp:293-300 | the shift factor 2^n is at least 1 |
| CppInt.BitAndSelf | include/vec2.hpp:242-249 | a value and-ed with itself is unchanged (`&=`) |
| CppInt.BitOrSelf | include/vec2.hpp:259-266 | a value or-ed with itself is unchanged (`|=`) |
| CppInt.BitXorSelf | include/vec2.hpp:276-283 | a value xor-ed with itself is 0 (`^=`) |
| CppInt.BitXorInvolutive | include/vec2.hpp:276-283 | xor-ing the same operand twice restores the value |
| CppInt.ShiftRoundTrip | include/vec2.hpp:293-300 | shifting left and then right by the same non-negative amount restores the value (no width is modelled) |
| CppInt.MulDivCancel | include/vec2.hpp:312-317 | the arithmetic right shift undoes multiplication by a positive factor exactly |
| VecTypes.LexTrichotomy | include/vec2.hpp:431-437 | the reference lexicographic order is a strict total order: exactly one of a < b, a == b, b < a |
| VecTypes.LexTransitive | include/vec2.hpp:431-437 | the reference lexicographic order is transitive |
| Vector2.Broadcast | include/vec2.hpp:24-24 | definition of the single-value constructor; specified by Vector2.BroadcastComponents |
| Vector2.Default | include/vec2.hpp:27-27 | definition of the default constructor; specified by Vector2.DefaultIsZero |
| Vector2.Zero | include/vec2.hpp:52-52 | definition of `zero()`; specified by Vector2.DefaultIsZero and Vector2.ZeroIsIdentity |
| Vector2.Ones | include/vec2.hpp:53-53 | definition of `ones()`; specified by Vector2.DefaultIsZero and Vector2.IncrementDecrementInverse |
| Vector2.FromVec3 | include/vec2.hpp:41-44 | definition of `vec2(vec3)`; specified by Vector2.ConversionsKeepXY |
| Vector2.FromVec4 | include/vec2.hpp:46-49 | definition of `vec2(vec4)`; specified by Vector2.ConversionsKeepXY |
| Vector2.ComponentCount | include/vec2.hpp:56-56 | definition of `componentCount()`; specified by Vector2.IndexMatchesComponents and Vector2.IndexOutOfRange |
| Vector2.Index | include/vec2.hpp:72-82 | definition of `operator[]`; specified by Vector2.IndexMatchesComponents, Vector2.IndexOutOfRange and Vector2.IndexDetermines |
| Vector2.Add | include/vec2.hpp:383-386 | definition of the free and member `+`; specified by Vector2.ZeroIsIdentity, Vector2.AddCommutative and Vector2.AddSubInverse |
| Vector2.Sub | include/vec2.hpp:87-87 | definition of the member `-` (the free `-` at lines 388-392 computes the same); specified by Vector2.SubSelfIsZero and Vector2.AddSubInverse |
| Vector2.Scale | include/vec2.hpp:405-416 | definition of `*` by a float scalar, on either side; specified by Vector2.ScaleByInteger and Vector2.DivUndoesScale |
| Vector2.Dot | include/vec2.hpp:121-121 | definition of `dot`; specified by Vector2.DotWithSelf and Vector2.DotCommutative |
| Vector2.Hadamard | include/vec2.hpp:173-178 | definition of the component-wise product of `*=` by a vector; specified by Vector2.QuotRemIdentity |
| Vector2.Quot | include/vec2.hpp:189-194 | definition of the truncating component-wise quotient of `/=`; specified by Vector2.QuotRemIdentity |
| Vector2.And | include/vec2.hpp:244-249 | definition of component-wise `&`; specified by Vector2.BitwiseWithSelf |
| Vector2.Or | include/vec2.hpp:261-266 | definition of component-wise `|`; specified by Vector2.BitwiseWithSelf |
| Vector2.Xor | include/vec2.hpp:278-283 | definition of component-wise `^`; specified by Vector2.XorInvolutive and Vector2.BitwiseWithSelf |
| Vector2.Shl | include/vec2.hpp:295-300 | definition of component-wise `<<`; specified by Vector2.ShiftLeftThenRight |
| Vector2.Shr | include/vec2.hpp:312-317 | definition of component-wise `>>`; specified by Vector2.ShiftLeftThenRight |
| Vector2.Less | include/vec2.hpp:431-437 | definition of the free `<`; specified by Vector2.LessIsLexicographic, Vector2.LessTrichotomy and Vector2.LessTransitive |
| Vector2.LessEqual | include/vec2.hpp:439-443 | definition of the free `<=`; specified by Vector2.DerivedComparisons |
| Vector2.Greater | include/vec2.hpp:445-449 | definition of the free `>`; specified by Vector2.DerivedComparisons |
| Vector2.GreaterEqual | include/vec2.hpp:451-455 | definition of the free `>=`; specified by Vector2.DerivedComparisons |
| Vector2.Xx | include/vec2.hpp:458-462 | definition of `xx`; specified by Vector2.RepeatingSwizzlesBroadcast |
| Vector2.Yy | include/vec2.hpp:464-468 | definition of `yy`; specified by Vector2.RepeatingSwizzlesBroadcast |
| Vector2.Yx | include/vec2.hpp:470-474 | definition of `yx`; specified by Vector2.YxSwapsIndices |
| Vector2.BroadcastComponents | include/vec2.hpp:24 | the single-value constructor puts the value in every component |
| Vector2.ConversionsKeepXY | include/vec2.hpp:41-49 | `vec2(vec3)` and `vec2(vec4)` copy x and y and drop the rest |
| Vector2.DefaultIsZero | include/vec2.hpp:52 | the default constructor equals `zero()`; `zero()` has every component 0 and `ones()` every component 1 |
| Vector2.IndexMatchesComponents | include/vec2.hpp:72-82 | `operator[]` with an index below 2 returns that component, in x, y, z, w order |
| Vector2.IndexOutOfRange | include/vec2.hpp:72-82 | an index at or beyond the component count falls through the `default` label and reads x |
| Vector2.IndexDetermines | include/vec2.hpp:72-82 | two vectors that agree at every valid index are equal |
| Vector2.Div | include/vec2.hpp:395-403 | division by a scalar is an error exactly when the scalar is 0.0, with the message "Division by zero"; otherwise it yields a vector |
| Vector2.LengthSquared | include/vec2.hpp:103 | the squared length is non-negative and is 0 exactly for the zero vector |
| Vector2.ZeroIsIdentity | include/vec2.hpp:383-386 | adding `zero()` on either side changes nothing |
| Vector2.SubSelfIsZero | include/vec2.hpp:87 | `v - v == zero()` (member operator-) |
| Vector2.AddSubInverse | include/vec2.hpp:383-386 | subtraction undoes addition and addition undoes subtraction |
| Vector2.AddCommutative | include/vec2.hpp:383-386 | addition is commutative |
| Vector2.ScaleByInteger | include/vec2.hpp:406-409 | scaling by an integer-valued scalar multiplies every component exactly |
| Vector2.DivExactMultiple | include/vec2.hpp:395-403 | dividing component-wise multiples of k by a nonzero k yields the original vector |
| Vector2.DivUndoesScale | include/vec2.hpp:395-403 | dividing by a nonzero integer-valued scalar undoes scaling by it |
| Vector2.DotWithSelf | include/vec2.hpp:121 | the dot product of a vector with itself is its squared length |
| Vector2.Rem | include/vec2.hpp:228-233 | each component of `%=` is smaller in magnitude than the divisor component and has the sign of the dividend component |
| Vector2.QuotRemIdentity | include/vec2.hpp:228-233 | component-wise, quotient times divisor plus remainder gives back the dividend |
| Vector2.XorInvolutive | include/vec2.hpp:278-283 | xor-ing the same vector twice restores the original |
| Vector2.BitwiseWithSelf | include/vec2.hpp:244-249 | and and or with itself change nothing; xor with itself gives zero |
| Vector2.ShiftLeftThenRight | include/vec2.hpp:295-300 | shifting left and then right by the same non-negative amounts restores the vector |
| Vector2.Equal | include/vec2.hpp:420-423 | free `==` holds exactly when all components are equal |
| Vector2.NotEqual | include/vec2.hpp:426-429 | free `!=` holds exactly when the vectors differ |
| Vector2.LessIsLexicographic | include/vec2.hpp:432-437 | free `<` coincides with the reference lexicographic order on the component sequences |
| Vector2.LessTrichotomy | include/vec2.hpp:432-437 | exactly one of a < b, a == b, b < a holds, and `<` is irreflexive |
| Vector2.LessTransitive | include/vec2.hpp:432-437 | free `<` is transitive |
| Vector2.DerivedComparisons | include/vec2.hpp:440-455 | `<=` is "less or equal", `>` is `<` swapped and `>=` is "greater or equal", all derived from `<` |
| Vector2.IncrementDecrementInverse | include/vec2.hpp:197-202 | incrementing and decrementing undo each other |
| Vector2.Vec2Var.constructor | include/vec2.hpp:37-39 | the new object holds the given vector |
| Vector2.Vec2Var.SetComponent | include/vec2.hpp:60-70 | writing through `operator[]` sets the indexed component (x for out-of-range indices) and leaves the other components unchanged |
| Vector2.Vec2Var.Assign | include/vec2.hpp:125-130 | after `operator=` the object holds the assigned vector |
| Vector2.Vec2Var.AddScalar | include/vec2.hpp:133-138 | the new value is the old value plus the broadcast scalar; nothing else changes |
| Vector2.Vec2Var.AddVector | include/vec2.hpp:141-146 | the new value is the old value plus the operand; nothing else changes |
| Vector2.Vec2Var.SubScalar | include/vec2.hpp:149-154 | the new value is the old value minus the broadcast scalar; nothing else changes |
| Vector2.Vec2Var.SubVector | include/vec2.hpp:157-162 | the new value is the old value minus the operand; nothing else changes |
| Vector2.Vec2Var.MulScalar | include/vec2.hpp:165-170 | the new value is the component-wise product of the old value with the broadcast scalar; nothing else changes |
| Vector2.Vec2Var.MulVector | include/vec2.hpp:173-178 | the new value is the component-wise product of the old value with the operand; nothing else changes |
| Vector2.Vec2Var.DivScalar | include/vec2.hpp:181-186 | the new value is the truncating component-wise quotient of the old value by the nonzero scalar; nothing else changes |
| Vector2.Vec2Var.DivVector | include/vec2.hpp:189-194 | the new value is the truncating component-wise quotient by an operand with no zero component; nothing else changes |
| Vector2.Vec2Var.PreIncrement | include/vec2.hpp:197-202 | the new value is the old value plus `ones()`; nothing else changes |
| Vector2.Vec2Var.PreDecrement | include/vec2.hpp:204-209 | the new value is the old value minus `ones()`; nothing else changes |
| Vector2.Vec2Var.RemVector | include/vec2.hpp:228-233 | the new value is the component-wise C++ remainder of the old value by an operand with no zero component; nothing else changes |
| Vector2.Vec2Var.RemScalar | include/vec2.hpp:235-240 | the new value is the component-wise C++ remainder by the nonzero scalar; nothing else changes |
| Vector2.Vec2Var.AndVector | include/vec2.hpp:244-249 | the new value is the component-wise two's-complement and of old value and operand; nothing else changes |
| Vector2.Vec2Var.AndScalar | include/vec2.hpp:252-257 | the new value is the component-wise and with the scalar; nothing else changes |
| Vector2.Vec2Var.OrVector | include/vec2.hpp:261-266 | the new value is the component-wise or of old value and operand; nothing else changes |
| Vector2.Vec2Var.OrScalar | include/vec2.hpp:269-274 | the new value is the component-wise or with the scalar; nothing else changes |
| Vector2.Vec2Var.XorVector | include/vec2.hpp:278-283 | the new value is the component-wise xor of old value and operand; nothing else changes |
| Vector2.Vec2Var.XorScalar | include/vec2.hpp:286-291 | the new value is the component-wise xor with the scalar; nothing else changes |
| Vector2.Vec2Var.ShlVector | include/vec2.hpp:295-300 | the new value is each component shifted left by the matching non-negative operand component; nothing else changes |
| Vector2.Vec2Var.ShlScalar | include/vec2.hpp:303-308 | the new value is each component shifted left by the non-negative scalar; nothing else changes |
| Vector2.Vec2Var.ShrVector | include/vec2.hpp:312-317 | the new value is each component shifted right (rounding down) by the matching operand component; nothing else changes |
| Vector2.Vec2Var.ShrScalar | include/vec2.hpp:320-325 | the new value is each component shifted right (rounding down) by the scalar; nothing else changes |
| Vector2.Vec2Var.PostIncrement | include/vec2.hpp:211-216 | returns the old value and leaves the object holding the old value plus `ones()` |
| Vector2.Vec2Var.PostDecrement | include/vec2.hpp:218-223 | returns the old value and leaves the object holding the old value minus `ones()` |
| Vector2.DotCommutative | include/vec2.hpp:121 | the dot product is symmetric |
| Vector2.YxSwapsIndices | include/vec2.hpp:471-474 | `yx` reads index 1 - i at index i and is its own inverse |
| Vector2.RepeatingSwizzlesBroadcast | include/vec2.hpp:458-468 | `xx` and `yy` broadcast index 0 and index 1 |
| Vector3.Broadcast | include/vec3.hpp:24-24 | definition of the single-value constructor; specified by Vector3.RepeatingSwizzlesBroadcast |
| Vector3.Default | include/vec3.hpp:27-27 | definition of the default constructor; specified by Vector3.DefaultIsZero |
| Vector3.Zero | include/vec3.hpp:62-62 | definition of `zero()`; specified by Vector3.DefaultIsZero and Vector3.ZeroIsIdentity |
| Vector3.Ones | include/vec3.hpp:63-63 | definition of `ones()`; specified by Vector3.DefaultIsZero and Vector3.IncrementDecrementInverse |
| Vector3.FromVec2Z | include/vec3.hpp:37-41 | definition of `vec3(vec2, z)`; specified by Vector3.MixedConstructorsConcatenate and Vector3.WidenThenNarrow |
| Vector3.FromXVec2 | include/vec3.hpp:43-47 | definition of `vec3(x, vec2)`; specified by Vector3.MixedConstructorsConcatenate |
| Vector3.FromVec4 | include/vec3.hpp:55-59 | definition of `vec3(vec4)`; specified by Vector3.WidenThenNarrow |
| Vector3.ComponentCount | include/vec3.hpp:65-65 | definition of `componentCount()`; specified by Vector3.IndexMatchesComponents and Vector3.IndexOutOfRange |
| Vector3.Index | include/vec3.hpp:83-95 | definition of `operator[]`; specified by Vector3.IndexMatchesComponents, Vector3.IndexOutOfRange and Vector3.IndexDetermines |
| Vector3.Add | include/vec3.hpp:437-441 | definition of the free and member `+`; specified by Vector3.ZeroIsIdentity, Vector3.AddCommutative and Vector3.AddSubInverse |
| Vector3.Sub | include/vec3.hpp:102-105 | definition of the member `-` (the free `-` at lines 443-447 computes the same); specified by Vector3.SubSelfIsZero and Vector3.AddSubInverse |
| Vector3.Scale | include/vec3.hpp:460-471 | definition of `*` by a float scalar, on either side; specified by Vector3.ScaleByInteger and Vector3.DivUndoesScale |
| Vector3.Dot | include/vec3.hpp:143-143 | definition of `dot`; specified by Vector3.DotWithSelf and Vector3.DotCommutative |
| Vector3.Cross | include/vec3.hpp:146-150 | definition of `cross`; specified by Vector3.CrossOfBasis, Vector3.CrossAntiCommutative and Vector3.CrossOrthogonal |
| Vector3.Hadamard | include/vec3.hpp:208-214 | definition of the component-wise product of `*=` by a vector; specified by Vector3.QuotRemIdentity |
| Vector3.Quot | include/vec3.hpp:226-232 | definition of the truncating component-wise quotient of `/=`; specified by Vector3.QuotRemIdentity |
| Vector3.And | include/vec3.hpp:287-293 | definition of component-wise `&`; specified by Vector3.BitwiseWithSelf |
| Vector3.Or | include/vec3.hpp:306-312 | definition of component-wise `|`; specified by Vector3.BitwiseWithSelf |
| Vector3.Xor | include/vec3.hpp:325-331 | definition of component-wise `^`; specified by Vector3.XorInvolutive and Vector3.BitwiseWithSelf |
| Vector3.Shl | include/vec3.hpp:344-350 | definition of component-wise `<<`; specified by Vector3.ShiftLeftThenRight |
| Vector3.Shr | include/vec3.hpp:372-378 | definition of component-wise `>>`, used with a broadcast scalar (vec3 has no right shift by a vec3); specified by Vector3.ShiftScalarRoundTrip |
| Vector3.Less | include/vec3.hpp:486-494 | definition of the free `<`; specified by Vector3.LessIsLexicographic, Vector3.LessTrichotomy, Vector3.LessTransitive and Vector3.LessExamples |
| Vector3.LessEqual | include/vec3.hpp:496-500 | definition of the free `<=`; specified by Vector3.DerivedComparisons |
| Vector3.Greater | include/vec3.hpp:502-506 | definition of the free `>`; specified by Vector3.DerivedComparisons |
| Vector3.GreaterEqual | include/vec3.hpp:508-512 | definition of the free `>=`; specified by Vector3.DerivedComparisons |
| Vector3.Zyx | include/vec3.hpp:515-519 | definition of `zyx`; specified by Vector3.ZyxReverses |
| Vector3.Xxx | include/vec3.hpp:527-531 | definition of `xxx`; specified by Vector3.RepeatingSwizzlesBroadcast |
| Vector3.Yyy | include/vec3.hpp:533-537 | definition of `yyy`; specified by Vector3.RepeatingSwizzlesBroadcast |
| Vector3.Zzz | include/vec3.hpp:539-543 | definition of `zzz`; specified by Vector3.RepeatingSwizzlesBroadcast |
| Vector3.MixedConstructorsConcatenate | include/vec3.hpp:37-47 | `vec3(vec2, z)` and `vec3(x, vec2)` lay their arguments out in order |
| Vector3.WidenThenNarrow | include/vec3.hpp:37-59 | narrowing `vec3(xy, z)` back to `vec2` gives xy; `vec3(vec4)` keeps x, y, z and drops w |
| Vector3.DefaultIsZero | include/vec3.hpp:62 | the default constructor equals `zero()`; `zero()` has every component 0 and `ones()` every component 1 |
| Vector3.IndexMatchesComponents | include/vec3.hpp:83-95 | `operator[]` with an index below 3 returns that component, in x, y, z, w order |
| Vector3.IndexOutOfRange | include/vec3.hpp:83-95 | an index at or beyond the component count falls through the `default` label and reads x |
| Vector3.IndexDetermines | include/vec3.hpp:83-95 | two vectors that agree at every valid index are equal |
| Vector3.Div | include/vec3.hpp:450-458 | division by a scalar is an error exactly when the scalar is 0.0, with the message "Division by zero"; otherwise it yields a vector |
| Vector3.LengthSquared | include/vec3.hpp:124 | the squared length is non-negative and is 0 exactly for the zero vector |
| Vector3.ZeroIsIdentity | include/vec3.hpp:438-441 | adding `zero()` on either side changes nothing |
| Vector3.SubSelfIsZero | include/vec3.hpp:102-105 | `v - v == zero()` (member operator-) |
| Vector3.AddSubInverse | include/vec3.hpp:438-441 | subtraction undoes addition and addition undoes subtraction |
| Vector3.AddCommutative | include/vec3.hpp:438-441 | addition is commutative |
| Vector3.ScaleByInteger | include/vec3.hpp:461-464 | scaling by an integer-valued scalar multiplies every component exactly |
| Vector3.DivExactMultiple | include/vec3.hpp:450-458 | dividing component-wise multiples of k by a nonzero k yields the original vector |
| Vector3.DivUndoesScale | include/vec3.hpp:450-458 | dividing by a nonzero integer-valued scalar undoes scaling by it |
| Vector3.DotWithSelf | include/vec3.hpp:143 | the dot product of a vector with itself is its squared length |
| Vector3.Rem | include/vec3.hpp:269-275 | each component of `%=` is smaller in magnitude than the divisor component and has the sign of the dividend component |
| Vector3.QuotRemIdentity | include/vec3.hpp:269-275 | component-wise, quotient times divisor plus remainder gives back the dividend |
| Vector3.XorInvolutive | include/vec3.hpp:325-331 | xor-ing the same vector twice restores the original |
| Vector3.BitwiseWithSelf | include/vec3.hpp:287-293 | and and or with itself change nothing; xor with itself gives zero |
| Vector3.ShiftLeftThenRight | include/vec3.hpp:344-350 | shifting left and then right by the same non-negative amounts restores the vector (the right shift by a vector is the model's own inverse: vec3 declares no right shift by a vec3) |
| Vector3.Equal | include/vec3.hpp:475-478 | free `==` holds exactly when all components are equal |
| Vector3.NotEqual | include/vec3.hpp:481-484 | free `!=` holds exactly when the vectors differ |
| Vector3.LessIsLexicographic | include/vec3.hpp:487-494 | free `<` coincides with the reference lexicographic order on the component sequences |
| Vector3.LessTrichotomy | include/vec3.hpp:487-494 | exactly one of a < b, a == b, b < a holds, and `<` is irreflexive |
| Vector3.LessTransitive | include/vec3.hpp:487-494 | free `<` is transitive |
| Vector3.DerivedComparisons | include/vec3.hpp:497-512 | `<=` is "less or equal", `>` is `<` swapped and `>=` is "greater or equal", all derived from `<` |
| Vector3.IncrementDecrementInverse | include/vec3.hpp:236-242 | incrementing and decrementing undo each other |
| Vector3.Vec3Var.constructor | include/vec3.hpp:50-53 | the new object holds the given vector |
| Vector3.Vec3Var.SetComponent | include/vec3.hpp:69-81 | writing through `operator[]` sets the indexed component (x for out-of-range indices) and leaves the other components unchanged |
| Vector3.Vec3Var.Assign | include/vec3.hpp:154-160 | after `operator=` the object holds the assigned vector |
| Vector3.Vec3Var.AddScalar | include/vec3.hpp:163-169 | the new value is the old value plus the broadcast scalar; nothing else changes |
| Vector3.Vec3Var.AddVector | include/vec3.hpp:172-178 | the new value is the old value plus the operand; nothing else changes |
| Vector3.Vec3Var.SubScalar | include/vec3.hpp:181-187 | the new value is the old value minus the broadcast scalar; nothing else changes |
| Vector3.Vec3Var.SubVector | include/vec3.hpp:190-196 | the new value is the old value minus the operand; nothing else changes |
| Vector3.Vec3Var.MulScalar | include/vec3.hpp:199-205 | the new value is the component-wise product of the old value with the broadcast scalar; nothing else changes |
| Vector3.Vec3Var.MulVector | include/vec3.hpp:208-214 | the new value is the component-wise product of the old value with the operand; nothing else changes |
| Vector3.Vec3Var.DivScalar | include/vec3.hpp:217-223 | the new value is the truncating component-wise quotient of the old value by the nonzero scalar; nothing else changes |
| Vector3.Vec3Var.DivVector | include/vec3.hpp:226-232 | the new value is the truncating component-wise quotient by an operand with no zero component; nothing else changes |
| Vector3.Vec3Var.PreIncrement | include/vec3.hpp:236-242 | the new value is the old value plus `ones()`; nothing else changes |
| Vector3.Vec3Var.PreDecrement | include/vec3.hpp:244-250 | the new value is the old value minus `ones()`; nothing else changes |
| Vector3.Vec3Var.RemVector | include/vec3.hpp:269-275 | the new value is the component-wise C++ remainder of the old value by an operand with no zero component; nothing else changes |
| Vector3.Vec3Var.RemScalar | include/vec3.hpp:277-283 | the new value is the component-wise C++ remainder by the nonzero scalar; nothing else changes |
| Vector3.Vec3Var.AndVector | include/vec3.hpp:287-293 | the new value is the component-wise two's-complement and of old value and operand; nothing else changes |
| Vector3.Vec3Var.AndScalar | include/vec3.hpp:296-302 | the new value is the component-wise and with the scalar; nothing else changes |
| Vector3.Vec3Var.OrVector | include/vec3.hpp:306-312 | the new value is the component-wise or of old value and operand; nothing else changes |
| Vector3.Vec3Var.OrScalar | include/vec3.hpp:315-321 | the new value is the component-wise or with the scalar; nothing else changes |
| Vector3.Vec3Var.XorVector | include/vec3.hpp:325-331 | the new value is the component-wise xor of old value and operand; nothing else changes |
| Vector3.Vec3Var.XorScalar | include/vec3.hpp:334-340 | the new value is the component-wise xor with the scalar; nothing else changes |
| Vector3.Vec3Var.ShlVector | include/vec3.hpp:344-350 | the new value is each component shifted left by the matching non-negative operand component; nothing else changes |
| Vector3.Vec3Var.ShlScalar | include/vec3.hpp:353-359 | the new value is each component shifted left by the non-negative scalar; nothing else changes |
| Vector3.Vec3Var.ShrScalar | include/vec3.hpp:372-378 | the new value is each component shifted right (rounding down) by the scalar; nothing else changes |
| Vector3.Vec3Var.PostIncrement | include/vec3.hpp:252-257 | returns the old value and leaves the object holding the old value plus `ones()` |
| Vector3.Vec3Var.PostDecrement | include/vec3.hpp:259-264 | returns the old value and leaves the object holding the old value minus `ones()` |
| Vector3.ShiftScalarRoundTrip | include/vec3.hpp:353-378 | `<<=` and then `>>=` by the same non-negative scalar restore the vector |
| Vector3.LessExamples | include/vec3.hpp:487-494 | (1, 2, 3) < (1, 2, 4) and (1, 5, 0) < (2, 0, 0), and not the other way round |
| Vector3.DotCommutative | include/vec3.hpp:143 | the dot product is symmetric |
| Vector3.CrossOfBasis | include/vec3.hpp:146-150 | x-axis cross y-axis is the z-axis, and y-axis cross z-axis is the x-axis |
| Vector3.CrossAntiCommutative | include/vec3.hpp:146-150 | swapping the operands negates the cross product; a vector crossed with itself is zero |
| Vector3.CrossOrthogonal | include/vec3.hpp:146-150 | the cross product has zero dot product with both operands |
| Vector3.ZyxReverses | include/vec3.hpp:516-519 | `zyx` reads index 2 - i at index i and is its own inverse |
| Vector3.RepeatingSwizzlesBroadcast | include/vec3.hpp:527-543 | `xxx`, `yyy` and `zzz` broadcast index 0, 1 and 2 |
| Vector4.Broadcast | include/vec4.hpp:25-25 | definition of the single-value constructor; specified by Vector4.RepeatingSwizzlesRead |
| Vector4.Default | include/vec4.hpp:28-34 | definition of the default constructor; specified by Vector4.DefaultIsZero |
| Vector4.Zero | include/vec4.hpp:107-107 | definition of `zero()`; specified by Vector4.DefaultIsZero and Vector4.ZeroIsIdentity |
| Vector4.Ones | include/vec4.hpp:108-108 | definition of `ones()`; specified by Vector4.DefaultIsZero and Vector4.IncrementDecrementInverse |
| Vector4.FromVec2ZW | include/vec4.hpp:44-51 | definition of `vec4(vec2, z, w)`; specified by Vector4.ComposingConstructorsConcatenate |
| Vector4.FromXVec2W | include/vec4.hpp:53-60 | definition of `vec4(x, vec2, w)`; specified by Vector4.ComposingConstructorsConcatenate |
| Vector4.FromXYVec2 | include/vec4.hpp:62-69 | definition of `vec4(x, y, vec2)`; specified by Vector4.ComposingConstructorsConcatenate |
| Vector4.FromVec3W | include/vec4.hpp:71-78 | definition of `vec4(vec3, w)`; specified by Vector4.ComposingConstructorsConcatenate |
| Vector4.FromXVec3 | include/vec4.hpp:80-87 | definition of `vec4(x, vec3)`; specified by Vector4.ComposingConstructorsConcatenate |
| Vector4.FromVec2Vec2 | include/vec4.hpp:89-96 | definition of `vec4(vec2, vec2)`; specified by Vector4.ComposingConstructorsConcatenate |
| Vector4.ComponentCount | include/vec4.hpp:110-110 | definition of `componentCount()`; specified by Vector4.IndexMatchesComponents and Vector4.IndexOutOfRange |
| Vector4.Index | include/vec4.hpp:114-144 | definition of `operator[]`; specified by Vector4.IndexMatchesComponents, Vector4.IndexOutOfRange and Vector4.IndexDetermines |
| Vector4.Add | include/vec4.hpp:518-522 | definition of the free and member `+`; specified by Vector4.ZeroIsIdentity, Vector4.AddCommutative and Vector4.AddSubInverse |
| Vector4.Sub | include/vec4.hpp:152-155 | definition of the member `-`, which `a - b` resolves to; specified by Vector4.SubSelfIsZero and Vector4.AddSubInverse |
| Vector4.FreeSubAsWritten | include/vec4.hpp:524-528 | definition of the free `operator-` as written; specified by Vector4.FreeSubAsWrittenAgreesIff, Vector4.FreeSubAsWrittenCounterexample and Vector4.FreeSubAsWrittenDoesNotInvertAdd |
| Vector4.Scale | include/vec4.hpp:541-552 | definition of `*` by a float scalar, on either side; specified by Vector4.ScaleByInteger and Vector4.DivUndoesScale |
| Vector4.Dot | include/vec4.hpp:194-198 | definition of `dot`; specified by Vector4.DotWithSelf and Vector4.DotIsSumOfHadamard |
| Vector4.Hadamard | include/vec4.hpp:201-205 | definition of `hadamard`; specified by Vector4.DotIsSumOfHadamard and Vector4.QuotRemIdentity |
| Vector4.Quot | include/vec4.hpp:289-296 | definition of the truncating component-wise quotient of `/=`; specified by Vector4.QuotRemIdentity |
| Vector4.And | include/vec4.hpp:355-362 | definition of component-wise `&`; specified by Vector4.BitwiseWithSelf |
| Vector4.Or | include/vec4.hpp:376-383 | definition of component-wise `|`; specified by Vector4.BitwiseWithSelf |
| Vector4.Xor | include/vec4.hpp:397-404 | definition of component-wise `^`; specified by Vector4.XorInvolutive and Vector4.BitwiseWithSelf |
| Vector4.Shl | include/vec4.hpp:418-425 | definition of component-wise `<<`; specified by Vector4.ShiftLeftThenRight |
| Vector4.Shr | include/vec4.hpp:439-446 | definition of component-wise `>>`; specified by Vector4.ShiftLeftThenRight |
| Vector4.Less | include/vec4.hpp:567-577 | definition of the free `<`; specified by Vector4.LessIsLexicographic, Vector4.LessTrichotomy and Vector4.LessTransitive |
| Vector4.LessEqual | include/vec4.hpp:579-583 | definition of the free `<=`; specified by Vector4.DerivedComparisons |
| Vector4.Greater | include/vec4.hpp:585-589 | definition of the free `>`; specified by Vector4.DerivedComparisons |
| Vector4.GreaterEqual | include/vec4.hpp:591-595 | definition of the free `>=`; specified by Vector4.DerivedComparisons |
| Vector4.WzyxAsWritten | include/vec4.hpp:598-602 | definition of `wzyx` as written; specified by Vector4.WzyxAsWrittenIsNotReversal |
| Vector4.Wzyx | include/vec4.hpp:598-602 | definition of `wzyx` as its name intends; specified by Vector4.WzyxReverses |
| Vector4.Xxxx | include/vec4.hpp:604-608 | definition of `xxxx`; specified by Vector4.RepeatingSwizzlesRead |
| Vector4.Yyyy | include/vec4.hpp:610-614 | definition of `yyyy`; specified by Vector4.RepeatingSwizzlesRead |
| Vector4.Zzzz | include/vec4.hpp:616-620 | definition of `zzzz`; specified by Vector4.RepeatingSwizzlesRead |
| Vector4.Wwww | include/vec4.hpp:622-626 | definition of `wwww`; specified by Vector4.RepeatingSwizzlesRead |
| Vector4.ComposingConstructorsConcatenate | include/vec4.hpp:44-96 | all six composing constructors (2+1+1, 1+2+1, 1+1+2, 3+1, 1+3, 2+2) lay their arguments out in x, y, z, w order |
| Vector4.NarrowComposed | include/vec4.hpp:89-104 | narrowing a composed vec4 with `vec2(vec4)` or `vec3(vec4)` recovers the leading part |
| Vector4.DefaultIsZero | include/vec4.hpp:107 | the default constructor equals `zero()`; `zero()` has every component 0 and `ones()` every component 1 |
| Vector4.IndexMatchesComponents | include/vec4.hpp:114-128 | `operator[]` with an index below 4 returns that component, in x, y, z, w order |
| Vector4.IndexOutOfRange | include/vec4.hpp:114-128 | an index at or beyond the component count falls through the `default` label and reads x |
| Vector4.IndexDetermines | include/vec4.hpp:114-128 | two vectors that agree at every valid index are equal |
| Vector4.Div | include/vec4.hpp:531-539 | division by a scalar is an error exactly when the scalar is 0.0, with the message "Division by zero"; otherwise it yields a vector |
| Vector4.LengthSquared | include/vec4.hpp:174 | the squared length is non-negative and is 0 exactly for the zero vector |
| Vector4.ZeroIsIdentity | include/vec4.hpp:519-522 | adding `zero()` on either side changes nothing |
| Vector4.SubSelfIsZero | include/vec4.hpp:152-155 | `v - v == zero()` (member operator-) |
| Vector4.AddSubInverse | include/vec4.hpp:519-522 | subtraction undoes addition and addition undoes subtraction |
| Vector4.AddCommutative | include/vec4.hpp:519-522 | addition is commutative |
| Vector4.ScaleByInteger | include/vec4.hpp:542-545 | scaling by an integer-valued scalar multiplies every component exactly |
| Vector4.DivExactMultiple | include/vec4.hpp:531-539 | dividing component-wise multiples of k by a nonzero k yields the original vector |
| Vector4.DivUndoesScale | include/vec4.hpp:531-539 | dividing by a nonzero integer-valued scalar undoes scaling by it |
| Vector4.DotWithSelf | include/vec4.hpp:195-198 | the dot product of a vector with itself is its squared length |
| Vector4.Rem | include/vec4.hpp:335-342 | each component of `%=` is smaller in magnitude than the divisor component and has the sign of the dividend component |
| Vector4.QuotRemIdentity | include/vec4.hpp:335-342 | component-wise, quotient times divisor plus remainder gives back the dividend |
| Vector4.XorInvolutive | include/vec4.hpp:397-404 | xor-ing the same vector twice restores the original |
| Vector4.BitwiseWithSelf | include/vec4.hpp:355-362 | and and or with itself change nothing; xor with itself gives zero |
| Vector4.ShiftLeftThenRight | include/vec4.hpp:418-425 | shifting left and then right by the same non-negative amounts restores the vector |
| Vector4.Equal | include/vec4.hpp:556-559 | free `==` holds exactly when all components are equal |
| Vector4.NotEqual | include/vec4.hpp:562-565 | free `!=` holds exactly when the vectors differ |
| Vector4.LessIsLexicographic | include/vec4.hpp:568-577 | free `<` coincides with the reference lexicographic order on the component sequences |
| Vector4.LessTrichotomy | include/vec4.hpp:568-577 | exactly one of a < b, a == b, b < a holds, and `<` is irreflexive |
| Vector4.LessTransitive | include/vec4.hpp:568-577 | free `<` is transitive |
| Vector4.DerivedComparisons | include/vec4.hpp:580-595 | `<=` is "less or equal", `>` is `<` swapped and `>=` is "greater or equal", all derived from `<` |
| Vector4.IncrementDecrementInverse | include/vec4.hpp:300-307 | incrementing and decrementing undo each other |
| Vector4.Vec4Var.constructor | include/vec4.hpp:98-104 | the new object holds the given vector |
| Vector4.Vec4Var.SetComponent | include/vec4.hpp:113-128 | writing through `operator[]` sets the indexed component (x for out-of-range indices) and leaves the other components unchanged |
| Vector4.Vec4Var.Assign | include/vec4.hpp:209-216 | after `operator=` the object holds the assigned vector |
| Vector4.Vec4Var.AddScalar | include/vec4.hpp:219-226 | the new value is the old value plus the broadcast scalar; nothing else changes |
| Vector4.Vec4Var.AddVector | include/vec4.hpp:229-236 | the new value is the old value plus the operand; nothing else changes |
| Vector4.Vec4Var.SubScalar | include/vec4.hpp:239-246 | the new value is the old value minus the broadcast scalar; nothing else changes |
| Vector4.Vec4Var.SubVector | include/vec4.hpp:249-256 | the new value is the old value minus the operand; nothing else changes |
| Vector4.Vec4Var.MulScalar | include/vec4.hpp:259-266 | the new value is the component-wise product of the old value with the broadcast scalar; nothing else changes |
| Vector4.Vec4Var.MulVector | include/vec4.hpp:269-276 | the new value is the component-wise product of the old value with the operand; nothing else changes |
| Vector4.Vec4Var.DivScalar | include/vec4.hpp:279-286 | the new value is the truncating component-wise quotient of the old value by the nonzero scalar; nothing else changes |
| Vector4.Vec4Var.DivVector | include/vec4.hpp:289-296 | the new value is the truncating component-wise quotient by an operand with no zero component; nothing else changes |
| Vector4.Vec4Var.PreIncrement | include/vec4.hpp:300-307 | the new value is the old value plus `ones()`; nothing else changes |
| Vector4.Vec4Var.PreDecrement | include/vec4.hpp:309-316 | the new value is the old value minus `ones()`; nothing else changes |
| Vector4.Vec4Var.RemVector | include/vec4.hpp:335-342 | the new value is the component-wise C++ remainder of the old value by an operand with no zero component; nothing else changes |
| Vector4.Vec4Var.RemScalar | include/vec4.hpp:344-351 | the new value is the component-wise C++ remainder by the nonzero scalar; nothing else changes |
| Vector4.Vec4Var.AndVector | include/vec4.hpp:355-362 | the new value is the component-wise two's-complement and of old value and operand; nothing else changes |
| Vector4.Vec4Var.AndScalar | include/vec4.hpp:365-372 | the new value is the component-wise and with the scalar; nothing else changes |
| Vector4.Vec4Var.OrVector | include/vec4.hpp:376-383 | the new value is the component-wise or of old value and operand; nothing else changes |
| Vector4.Vec4Var.OrScalar | include/vec4.hpp:386-393 | the new value is the component-wise or with the scalar; nothing else changes |
| Vector4.Vec4Var.XorVector | include/vec4.hpp:397-404 | the new value is the component-wise xor of old value and operand; nothing else changes |
| Vector4.Vec4Var.XorScalar | include/vec4.hpp:407-414 | the new value is the component-wise xor with the scalar; nothing else changes |
| Vector4.Vec4Var.ShlVector | include/vec4.hpp:418-425 | the new value is each component shifted left by the matching non-negative operand component; nothing else changes |
| Vector4.Vec4Var.ShlScalar | include/vec4.hpp:428-435 | the new value is each component shifted left by the non-negative scalar; nothing else changes |
| Vector4.Vec4Var.ShrVector | include/vec4.hpp:439-446 | the new value is each component shifted right (rounding down) by the matching operand component; nothing else changes |
| Vector4.Vec4Var.ShrScalar | include/vec4.hpp:449-456 | the new value is each component shifted right (rounding down) by the scalar; nothing else changes |
| Vector4.Vec4Var.PostIncrement | include/vec4.hpp:318-323 | returns the old value and leaves the object holding the old value plus `ones()` |
| Vector4.Vec4Var.PostDecrement | include/vec4.hpp:325-330 | returns the old value and leaves the object holding the old value minus `ones()` |
| Vector4.FreeSubAsWrittenAgreesIff | include/vec4.hpp:525-528 | the free `operator-` as written equals the component-wise difference exactly when the left operand has x == z |
| Vector4.FreeSubAsWrittenCounterexample | include/vec4.hpp:525-528 | (0, 0, 1, 0) minus zero through the free operator gives (0, 0, 0, 0) |
| Vector4.FreeSubAsWrittenDoesNotInvertAdd | include/vec4.hpp:525-528 | whenever x != z in a + b, subtracting b through the free operator does not give a back |
| Vector4.DotIsSumOfHadamard | include/vec4.hpp:194-205 | the dot product is the sum of the components of the Hadamard product, which is commutative |
| Vector4.WzyxReverses | include/vec4.hpp:599-602 | the intended `wzyx` reads index 3 - i at index i and is its own inverse |
| Vector4.WzyxAsWrittenIsNotReversal | include/vec4.hpp:599-602 | `wzyx` as written equals the reversal exactly when x == y; it maps (1, 2, 3, 4) to (4, 3, 1, 2), and applying it twice gives (2, 1, 4, 3) |
| Vector4.RepeatingSwizzlesRead | include/vec4.hpp:604-626 | `xxxx`, `yyyy`, `zzzz` and `wwww` repeat index 0, 1, 2 and 3 |
| Rects.Default | include/rect.hpp:15-15 | definition of the default constructor; specified by Rects.MakeRect (it is MakeRect(0, 0, 0, 0)) |
| Rects.FromCorners | include/rect.hpp:42-48 | definition of the corner constructor; specified by Rects.ConstructorsAgree and Rects.CornersRoundTrip |
| Rects.FromVec4 | include/rect.hpp:54-60 | definition of the Vec4 constructor; specified by Rects.ConstructorsAgree |
| Rects.TopLeft | include/rect.hpp:90-90 | definition of `topLeft()`; specified by Rects.CornersRoundTrip and Rects.ContainsCornersIffNormalised |
| Rects.TopRight | include/rect.hpp:96-96 | definition of `topRight()`; specified by Rects.CornersRoundTrip and Rects.ContainsCornersIffNormalised |
| Rects.BottomLeft | include/rect.hpp:102-102 | definition of `bottomLeft()`; specified by Rects.CornersRoundTrip and Rects.ContainsCornersIffNormalised |
| Rects.BottomRight | include/rect.hpp:108-108 | definition of `bottomRight()`; specified by Rects.CornersRoundTrip and Rects.ContainsCornersIffNormalised |
| Rects.Contains | include/rect.hpp:144-147 | definition of `contains`; specified by Rects.ContainsCornersIffNormalised, Rects.ClampPoint and Rects.IntersectsIffCommonPoint |
| Rects.Intersects | include/rect.hpp:121-125 | definition of `intersects`; specified by Rects.IntersectsSymmetric and Rects.IntersectsIffCommonPoint |
| Rects.UnionWithAsWritten | include/rect.hpp:133-137 | definition of `unionWith` as written; specified by Rects.UnionWithAsWrittenIsTransposed and Rects.UnionWithAsWrittenLosesPoint |
| Rects.MakeRect | include/rect.hpp:24-30 | the four-side constructor always yields a normalised rectangle (top >= bottom, left <= right) holding the same two vertical and the same two horizontal values |
| Rects.MakeRectNormalForm | include/rect.hpp:24-30 | a normalised rectangle is reproduced by the constructor, and swapping top with bottom and left with right at once makes no difference |
| Rects.ConstructorsAgree | include/rect.hpp:42-60 | the corner and Vec4 constructors are the four-side constructor on (p.y, q.y, p.x, q.x) and (v.y, v.w, v.x, v.z): the Vec4 one takes its vertical sides from y and w, so it is the corner constructor on (x, y) and (z, w) |
| Rects.CornersRoundTrip | include/rect.hpp:90-108 | rebuilding a normalised rectangle from either pair of opposite corners gives it back |
| Rects.Area | include/rect.hpp:114 | the area of a normalised rectangle is non-negative |
| Rects.AreaZeroIffFlat | include/rect.hpp:114 | on a normalised rectangle the area is 0 exactly when it has zero width or zero height |
| Rects.ContainsCornersIffNormalised | include/rect.hpp:144-147 | all four corners are contained exactly when the rectangle is normalised |
| Rects.IntersectsSymmetric | include/rect.hpp:121-125 | `intersects` is symmetric, and a rectangle intersects itself exactly when it is normalised |
| Rects.IntersectsIffCommonPoint | include/rect.hpp:121-125 | two normalised rectangles intersect exactly when some point lies in both |
| Rects.ClampPoint | include/rect.hpp:169-172 | on a normalised rectangle the clamped point is contained; a contained point is returned unchanged |
| Rects.ClampPointIsNearest | include/rect.hpp:169-172 | on each axis no contained point is closer to p than the clamped point |
| Rects.UnionWith | include/rect.hpp:133-137 | the intended union is normalised |
| Rects.UnionWithIsLeastEnclosing | include/rect.hpp:133-137 | the intended union encloses both operands and is enclosed by every rectangle that encloses both |
| Rects.UnionWithContainsOperands | include/rect.hpp:133-137 | every point of either operand lies in the intended union |
| Rects.UnionWithAlgebra | include/rect.hpp:133-137 | the intended union is commutative and idempotent on normalised rectangles |
| Rects.UnionWithAsWrittenIsTransposed | include/rect.hpp:133-137 | for normalised operands, `unionWith` as written is the intended union with the vertical and horizontal extents exchanged |
| Rects.UnionWithAsWrittenCounterexample | include/rect.hpp:133-137 | the union of Rect(10, 0, 0, 1) with itself as written is Rect(1, 0, 0, 10) |
| Rects.UnionWithAsWrittenLosesPoint | include/rect.hpp:133-137 | the point (0, 10) lies in Rect(10, 0, 0, 1) but not in its union with itself as written |
| Rects.RectVar.constructor | include/rect.hpp:15-60 | the new object holds the rectangle built by any of the constructors |
| Rects.RectVar.Set | include/rect.hpp:156-162 | `set` stores the four sides verbatim; the result is normalised exactly when the new sides are ordered, so `set` can break the invariant the constructors establish |
| PcgRandom.StateStep | include/random.hpp:33-33 | definition of the LCG step on the state word, modulo 2^64; specified by PcgRandom.RetreatAdvance and PcgRandom.AdvanceInjective |
| PcgRandom.Advance | include/random.hpp:32-33 | definition of the state update of `rand()`, which keeps Sequence; specified by PcgRandom.RetreatAdvance, PcgRandom.AdvanceInjective and PcgRandom.AdvanceNKeepsSequence |
| PcgRandom.AdvanceN | include/random.hpp:32-33 | definition of n successive `rand()` state updates; specified by PcgRandom.AdvanceNAdd, PcgRandom.AdvanceNKeepsSequence and PcgRandom.DrawsElement |
| PcgRandom.XorShifted | include/random.hpp:35-36 | definition of the xorshifted 32-bit word; specified by PcgRandom.OutputInvertible |
| PcgRandom.RotateRight32 | include/random.hpp:39-39 | definition of the rotate to the right; specified by PcgRandom.RotateLeftUndoesRight |
| PcgRandom.OutputBits | include/random.hpp:35-39 | definition of the output permutation on bit-vectors; specified by PcgRandom.OutputInvertible |
| PcgRandom.Output | include/random.hpp:35-39 | definition of the value `rand()` returns; specified by PcgRandom.OutputInvertible and PcgRandom.Seed42FirstDraw |
| PcgRandom.AddToState | include/random.hpp:283-283 | definition of `State += v` modulo 2^64; specified by PcgRandom.AddToStateInjective |
| PcgRandom.ToU32 | include/random.hpp:57-57 | definition of the conversion of an `int` to `u32`; specified by PcgRandom.ToI32OfToU32 |
| PcgRandom.ToI32 | include/random.hpp:57-57 | the conversion of a `u32` back to `int` yields an `int`; its round trip is PcgRandom.ToI32OfToU32 |
| PcgRandom.MultiplierInverts | include/random.hpp:32-33 | the LCG multiplier has an inverse modulo 2^64 |
| PcgRandom.RetreatAdvance | include/random.hpp:32-33 | the reverse step undoes the LCG step of `rand()` and vice versa |
| PcgRandom.AdvanceInjective | include/random.hpp:32-33 | the LCG step is injective: distinct states never merge |
| PcgRandom.Rotation | include/random.hpp:37-37 | the rotate amount is below 32 |
| PcgRandom.RotateLeftUndoesRight | include/random.hpp:39-39 | rotating left by the same amount undoes the rotation to the right that `rand()` applies |
| PcgRandom.OutputInvertible | include/random.hpp:35-39 | the output, rotated back by the state's top five bits, is the xorshifted word: the output depends only on the old state and loses none of those bits |
| PcgRandom.DrawsThrough | include/random.hpp:28-40 | a sequence of n draws has n values |
| PcgRandom.Draws | include/random.hpp:28-40 | the first n `rand()` values are n values |
| PcgRandom.DrawsStep | include/random.hpp:28-40 | one more call appends the output of the current state |
| PcgRandom.DrawsElement | include/random.hpp:28-40 | draw i is the output of the state after i steps |
| PcgRandom.AdvanceNAdd | include/random.hpp:32-33 | m steps followed by n steps is m + n steps |
| PcgRandom.DrawsConcatenate | include/random.hpp:28-40 | drawing m + n values is drawing m values and then n more from where they left off |
| PcgRandom.AdvanceNKeepsSequence | include/random.hpp:32-33 | no number of steps changes the stream increment |
| PcgRandom.AddToStateInjective | include/random.hpp:283-290 | adding a constant to the state modulo 2^64 is injective |
| PcgRandom.FixedSeeded | include/random.hpp:285-293 | a nonzero seed sets the stream increment to 1 |
| PcgRandom.EntropySeeded | include/random.hpp:276-284 | the zero seed leaves an odd stream increment below 2^32 |
| PcgRandom.SeedResult | include/random.hpp:272-294 | every seeding leaves an odd increment, and a nonzero seed leaves increment 1 |
| PcgRandom.SeedDeterminesDraws | include/random.hpp:285-293 | a nonzero seed fixes every later sequence of draws, whatever the entropy source supplies |
| PcgRandom.FixedSeededInjective | include/random.hpp:285-293 | distinct nonzero seeds give distinct generator states |
| PcgRandom.Seed42State | include/random.hpp:285-293 | known answer: seed 42 leaves the state 7346174460380981671 |
| PcgRandom.Seed42FirstDraw | include/random.hpp:35-39 | known answer: the first draw after seed 42 is 2037114247 |
| PcgRandom.ToI32OfToU32 | include/random.hpp:57-57 | converting an int to unsigned and back gives it back |
| PcgRandom.RangeValue | include/random.hpp:53-58 | for min <= max the result lies in [min, max] and is min plus the draw modulo the range size; for any bounds it is an int |
| PcgRandom.RangeValueCorrect | include/random.hpp:53-58 | the unsigned arithmetic of `rand(min, max)` lands in [min, max] at offset draw % (max - min + 1) |
| PcgRandom.RangeValueReversedBounds | include/random.hpp:53-58 | with reversed bounds (5, 3) and the draw 7 the result is 12, outside both bounds |
| PcgRandom.Pick | include/random.hpp:106-108 | the string picked by a sequence of draws has one character per draw |
| PcgRandom.PickElement | include/random.hpp:106-108 | character i is `charset[draw i % charset.length()]` and so comes from the charset |
| PcgRandom.CharsetLengths | include/random.hpp:102-103 | both charsets have 62 characters |
| PcgRandom.CharsetsArePermutations | include/random.hpp:131-132 | the two charsets hold the same characters in a different order |
| PcgRandom.ElementAt | include/random.hpp:229-237 | selection fails exactly on an empty vector, with the source's message, and otherwise returns an element of the vector |
| PcgRandom.Random.constructor | include/random.hpp:17 | `Random()` seeds with the default 0: the state is the zero-seed state for the given entropy, with an odd increment |
| PcgRandom.Random.Rand | include/random.hpp:28-40 | returns the output of the old state, advances the state by one LCG step and keeps the increment |
| PcgRandom.Random.Seed | include/random.hpp:272-294 | the new state is the seeding result for the seed and entropy, and its increment is odd |
| PcgRandom.Random.RandRange | include/random.hpp:53-58 | returns the range value of the draw of the old state and consumes exactly one step |
| PcgRandom.Random.PickString | include/random.hpp:98-110 | a length of 0 is an error with no step taken; otherwise the string of the next `length` draws, and the state advances `length` steps |
| PcgRandom.Random.RandString | include/random.hpp:94-111 | as above over the lower-case-first charset |
| PcgRandom.Random.RandAlphaNumericString | include/random.hpp:124-140 | as above over the digits-first charset |
| PcgRandom.Random.CoinFlip | include/random.hpp:205-211 | true exactly when the draw of the old state is odd; one step is consumed |
| PcgRandom.Random.GetRandomElement | include/random.hpp:229-237 | an empty vector is an error with no step taken; otherwise the element at draw % size, after exactly one step |

## Left out

- Thread safety: the `std::mutex` that `rand()` locks is not modelled, and every method runs alone.
- Entropy: `std::random_device` in `seed(0)` becomes the three parameters `rd1`, `rd2` and `rd3` of `PcgRandom.SeedResult`, `PcgRandom.Random.Seed` and the `Random` constructor.
- `randF`, `randNormal` and `shuffleVector` are left out. They depend on floating point, on `std::normal_distribution`/`std::mt19937` or on `std::shuffle`, which are library code.
- `generateID` is left out: it reads a clock and keeps a hidden static counter.
- Floating point is not modelled. Vector components are integers; `length`, `normalize` and `normalized` need `sqrt` and are left out; `cross` is restricted to `float` by a `static_assert` and is modelled on integers.
- CppInt.TruncOfProduct: the product is taken as an exact real. The `float` rounding of `x * scalar` is not modelled, so the result is exact for the program only while |n * k| is below 2^24.
- CppInt.TruncOfQuotient: the quotient is taken as an exact real. The `float` rounding of `x / scalar` is not modelled, so the result is exact for the program only while |n * k| is below 2^24.
- Vector2.ScaleByInteger: the `float` rounding of `x * scalar` is not modelled. The exact product it promises holds for the program only while every |component * k| is below 2^24. For example, `vec2<int>(16777217, 0) * 1.0f` has x == 16777216.
- Vector2.DivExactMultiple: the `float` rounding of `x / scalar` is not modelled. The exact quotient holds for the program only while every |component * k| is below 2^24.
- Vector2.DivUndoesScale: the `float` rounding of the product and of the quotient is not modelled. The round trip holds for the program only while every |component * k| is below 2^24.
- Vector3.ScaleByInteger: the `float` rounding of `x * scalar` is not modelled. The exact product it promises holds for the program only while every |component * k| is below 2^24. For example, `vec3<int>(16777217, 0, 0) * 1.0f` has x == 16777216.
- Vector3.DivExactMultiple: the `float` rounding of `x / scalar` is not modelled. The exact quotient holds for the program only while every |component * k| is below 2^24.
- Vector3.DivUndoesScale: the `float` rounding of the product and of the quotient is not modelled. The round trip holds for the program only while every |component * k| is below 2^24.
- Vector4.ScaleByInteger: the `float` rounding of `x * scalar` is not modelled. The exact product it promises holds for the program only while every |component * k| is below 2^24. For example, `vec4<int>(16777217, 0, 0, 0) * 1.0f` has x == 16777216.
- Vector4.DivExactMultiple: the `float` rounding of `x / scalar` is not modelled. The exact quotient holds for the program only while every |component * k| is below 2^24.
- Vector4.DivUndoesScale: the `float` rounding of the product and of the quotient is not modelled. The round trip holds for the program only while every |component * k| is below 2^24.
- `dot` and `lengthSquared` return `float` in the source. The model returns the exact integer (`Dot`, `LengthSquared`), which the `float` equals only while it is below 2^24 in magnitude.
- Overflow of `T` is not modelled: sums, products and shifts of components are unbounded, so no wrap-around or undefined behaviour on overflow is captured.
- `toString`, `print` and `cornersToString` produce text for output and are left out.
- The member comparison templates are left out: `include/vec2.hpp:327-364`, `include/vec3.hpp:381-419` and `include/vec4.hpp:459-499`. The member `==` and `<` compare components, just as the free `==` and `<` do. The member `!=`, `<=`, `>` and `>=` compare `this`, an address, with a vector, so they do not compile once instantiated. The members are not `const`, so for a non-`const` left operand overload resolution prefers them to the free templates. Only the free `==`, `!=`, `<`, `<=`, `>` and `>=` are modelled (`Equal`, `NotEqual`, `Less`, `LessEqual`, `Greater`, `GreaterEqual`).
- `vec3::operator>>=(const vec2<T> &)` is left out: it reads `v.z` of a `vec2`, which has no such member, so it does not compile once instantiated. The scalar form of `>>=` is modelled. `Vector3.Shr` with an arbitrary vector operand stands for no operator of the source. It is used as the scalar `>>=`, with `Broadcast(numBits)` (`Vector3.ShiftScalarRoundTrip`), and as the inverse in `Vector3.ShiftLeftThenRight`.
- The `vec3` swizzle `wxy` is left out: it reads `v.w` of a `vec3`, which has no such member.
- The other helpers of `include/functions.hpp` are left out. `qm::abs` has an empty body, so `compare` built on it has no meaning. `mb` and `gb` call the undefined `KB` and `MB`. `isnan`, `isinf`, `sin`, `cos`, `tan`, `sqrt`, `percentage`, `lerp`, `correctDegrees`, the degree and radian conversions and `distance` are floating point. `maxValue`, `minValue` and `numBits` only forward to `std::numeric_limits`. `kb` is modelled, with its 64-bit wrap-around.
- `Rect` stores `f32` sides and is built from the aliases `Vec2` and `Vec4`, whose definitions are not part of this model. The sides are integers, and the points are the integer vectors of `VecTypes`.
- `QM_ASSERT` in `operator[]` is a debug check. The model follows the release behaviour of the `switch`.
- `include/mat4.hpp`, colours, easing, intersection helpers and the `src/` files are not part of this model.
- `PcgRandom.RangeValue` and `PcgRandom.Random.RandRange` require the `int` differences `max - min` and `max - min + 1` not to overflow and the unsigned range size not to be 0. An overflow of signed `int` and an unsigned remainder by zero are undefined behaviour in C++. Within those bounds, reversed bounds are accepted and modelled (`PcgRandom.RangeValueReversedBounds`).
- `PcgRandom.Random.PickString`, `RandString` and `RandAlphaNumericString` take a length of type `nat`. The `std::size_t` bound of the source is not modelled.
- `PcgRandom.ElementAt` states only that the element comes from the vector. `PcgRandom.Random.GetRandomElement` pins down which element: the one at `rand() % size()`.

## Findings

| source | as written | input that shows it | evidently intended | confidence | as-written member | corrected member |
|---|---|---|---|---|---|---|
| include/vec4.hpp:524-528 | the free `operator-` computes the third component as `lhs.x - rhs.z` | `operator-(vec4<int>(0, 0, 1, 0), vec4<int>(0))` gives (0, 0, 0, 0) instead of (0, 0, 1, 0); an ordinary `a - b` picks the member operator, so this shows only through an explicit call | `lhs.z - rhs.z`, the component-wise difference that undoes `+` | high, not executed | Vector4.FreeSubAsWrittenCounterexample | Vector4.AddSubInverse |
| include/vec4.hpp:598-602 | `wzyx` returns (w, z, x, y) | `wzyx(vec4<int>(1, 2, 3, 4))` gives (4, 3, 1, 2), and applying it twice gives (2, 1, 4, 3) | (w, z, y, x), the reversal, which is its own inverse | high, not executed | Vector4.WzyxAsWrittenIsNotReversal | Vector4.WzyxReverses |
| include/rect.hpp:133-137 | `unionWith` passes (min of lefts, max of rights, max of tops, min of bottoms) as (top, bottom, left, right), swapping the two axes | `Rect(10, 0, 0, 1).unionWith(Rect(10, 0, 0, 1))` gives `Rect(1, 0, 0, 10)`, which does not contain the point (0, 10) of either operand | `Rect(max of tops, min of bottoms, min of lefts, max of rights)`, the least rectangle that encloses both | high, not executed | Rects.UnionWithAsWrittenLosesPoint | Rects.UnionWithIsLeastEnclosing |
