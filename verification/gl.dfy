/** The driver boundary. Every OpenGL call the modelled code issues, and
    every message it prints through `ITextOutputGlob`, is an `Event`; an
    operation returns the events it issues, in order, as its trace. */
module Gl {
  import opened Uniform

  /** `OutputTypeGlob`. */
  datatype OutputKind = Debug | Notify | Warning | Error | PerformanceWarning | LogOnly

  /** `ShaderStage`; also names the `ProgramStageMask` bit of each stage. */
  datatype ShaderStage = Vertex | TessControl | TessEvaluation | Geometry | Fragment | Compute

  datatype TextureTarget =
    | Texture1D | Texture2D | Texture3D | Texture1DArray | Texture2DArray
    | TextureCubeMap | TextureCubeMapArray | Texture2DMultisample
    | Texture2DMultisampleArray | TextureRectangle | TextureBuffer

  datatype FramebufferTarget = ReadFramebuffer | DrawFramebuffer | Framebuffer

  datatype BufferRangeTarget = UniformBuffer | ShaderStorageBuffer | AtomicCounterBuffer | TransformFeedbackBuffer

  datatype Capability = Blend | CullFace

  /** `CullFaceMode` and `MaterialFace`. */
  datatype Face = Front | Back | FrontAndBack

  datatype PolygonMode = Point | Line | Fill

  datatype DepthFunction = Never | Less | Equal | Lequal | Greater | Notequal | Gequal | Always

  /** `BlendingFactorSrc` / `BlendingFactorDest`, which share their values. */
  datatype BlendFactor =
    | Zero | One | SrcColor | OneMinusSrcColor | SrcAlpha | OneMinusSrcAlpha
    | DstAlpha | OneMinusDstAlpha | DstColor | OneMinusDstColor | SrcAlphaSaturate
    | ConstantColor | OneMinusConstantColor | ConstantAlpha | OneMinusConstantAlpha

  datatype BlendEquation = FuncAdd | Min | Max | FuncSubtract | FuncReverseSubtract

  /** `VertexAttribType` (the integer and double variants share its values). */
  datatype AttribType = Byte | UnsignedByte | Short | UnsignedShort | Int | UnsignedInt | HalfFloat | FloatType | DoubleType | Fixed

  /** `SizedInternalFormatGlob`: an enumeration constant, kept as its value. */
  type InternalFormat = int

  datatype LabelKind = ProgramLabel | TextureLabel | BufferLabel

  datatype Event =
    | Print(kind: OutputKind, text: string)
    | ObjectLabel(labelKind: LabelKind, name: int, objectLabel: string)
    // programs (Shader)
    | CreateShaderProgram(stage: ShaderStage, code: string, program: int)
    | DeleteProgram(program: int)
    | QueryWorkGroupSize(program: int)
    | QueryUniformLocation(program: int, uniform: string)
    | ProgramUniform(program: int, location: int, value: UniformValue)
    | UniformBlockBinding(program: int, blockIndex: int, bindingPoint: int)
    | ShaderStorageBlockBinding(program: int, blockIndex: int, bindingPoint: int)
    // program pipelines (ShaderPipeline)
    | GenProgramPipeline(pipeline: int)
    | DeleteProgramPipeline(pipeline: int)
    | UseProgramStages(pipeline: int, stage: ShaderStage, program: int)
    | BindProgramPipeline(pipeline: int)
    // device state
    | DispatchCompute(groupsX: int, groupsY: int, groupsZ: int)
    | BindFramebuffer(fbTarget: FramebufferTarget, framebuffer: int)
    | Enable(cap: Capability)
    | Disable(cap: Capability)
    | CullFaceMode(face: Face)
    | SetPolygonMode(face: Face, mode: PolygonMode)
    | DepthMask(flag: bool)
    | DepthFunc(func: DepthFunction)
    | ColorMask(r: bool, g: bool, b: bool, a: bool)
    | BlendFuncSeparate(srcRgb: BlendFactor, dstRgb: BlendFactor, srcAlpha: BlendFactor, dstAlpha: BlendFactor)
    | BlendEquationSeparate(modeRgb: BlendEquation, modeAlpha: BlendEquation)
    // vertex input
    | EnableVertexAttribArray(index: int)
    | DisableVertexAttribArray(index: int)
    | VertexAttribFormat(index: int, size: int, attribType: AttribType, normalized: bool, relativeOffset: int)
    | VertexAttribIFormat(index: int, size: int, attribType: AttribType, relativeOffset: int)
    | VertexAttribLFormat(index: int, size: int, attribType: AttribType, relativeOffset: int)
    | VertexAttribBinding(index: int, bindingIndex: int)
    | BindVertexBuffers(source: nat)
    // textures
    | ActiveTexture(unit: int)
    | BindTexture(texTarget: TextureTarget, texture: int)
    | TexStorage(texTarget: TextureTarget, levels: int, format: InternalFormat, width: int, height: int, depth: int)
    | TexStorageMultisample(texTarget: TextureTarget, samples: int, format: InternalFormat, width: int, height: int, depth: int, fixedLocations: bool)
    | TextureView(texture: int, texTarget: TextureTarget, original: int, format: InternalFormat, minLevel: int, numLevels: int, minLayer: int, numLayers: int)
    | DeleteTexture(texture: int)
    // buffers
    | BindBufferBase(bufTarget: BufferRangeTarget, bindingPoint: int, buffer: int)
    | BindBufferRange(bufTarget: BufferRangeTarget, bindingPoint: int, buffer: int, offset: int, size: int)
    | ClientWaitSync(fence: nat)

  /** The events of `trace` that satisfy `p`, in order. */
  function Filter(trace: seq<Event>, p: Event -> bool): (r: seq<Event>)
    ensures |r| <= |trace|
    ensures forall i :: 0 <= i < |r| ==> p(r[i]) && r[i] in trace
  {
    if trace == [] then []
    else (if p(trace[0]) then [trace[0]] else []) + Filter(trace[1..], p)
  }

  lemma {:induction false} FilterConcat(a: seq<Event>, b: seq<Event>, p: Event -> bool)
    ensures Filter(a + b, p) == Filter(a, p) + Filter(b, p)
  {
    if a == [] {
      assert a + b == b;
    } else {
      assert (a + b)[1..] == a[1..] + b;
      FilterConcat(a[1..], b, p);
    }
  }
}
