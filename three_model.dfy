/**
 * The three.js values the material recipes touch, kept uninterpreted:
 * vectors are their components, a rotation is the Euler angles it was made
 * from, and a 4x4 matrix is the call that produced it
 * (`Matrix4.compose`, `Matrix4.invert`) rather than its sixteen numbers.
 */
module ThreeModel {

  /** `Vector3` */
  datatype Vec3 = Vec3(x: real, y: real, z: real) {
    /** `addScaledVector(v, s)`: this + v * s */
    function AddScaled(v: Vec3, s: real): Vec3 {
      Vec3(x + v.x * s, y + v.y * s, z + v.z * s)
    }
  }

  /** `Euler`; the rotation order is not modelled */
  datatype Euler = Euler(x: real, y: real, z: real)

  /** `Quaternion`: the identity, or the result of `setFromEuler` */
  datatype Quat = IdentityQuat | FromEuler(euler: Euler)

  /** `Matrix4`, by the operation that produced it */
  datatype Mat4 = Identity4 | Compose(position: Vec3, rotation: Quat, scale: Vec3) | Inverse(of: Mat4)

  /**
   * The value of a shader uniform: a number, a vector's components, a
   * colour as written, a `Matrix3` by the nine row-major arguments of its
   * `set` call, a `Matrix4`, or a texture.
   */
  datatype Uniform =
    | UNum(n: real)
    | UVec(xs: seq<real>)
    | UColor(css: string)
    | UMat3(rowMajor: seq<real>)
    | UMat4(m: Mat4)
    | UTexture(id: nat)

  /** `new Matrix3()`, as the arguments `set` would take */
  const Identity3: seq<real> := [1.0, 0.0, 0.0, 0.0, 1.0, 0.0, 0.0, 0.0, 1.0]

  /** A preprocessor define: a number, or a string such as `''` */
  datatype DefineValue = Num(n: real) | Str(s: string)

  /** The `shader` object three.js hands to `onBeforeCompile` */
  class Shader {
    var defines: map<string, DefineValue>
    var uniforms: map<string, Uniform>
    var vertexShader: string
    var fragmentShader: string

    constructor (defines: map<string, DefineValue>, uniforms: map<string, Uniform>,
                 vertexShader: string, fragmentShader: string)
      ensures this.defines == defines && this.uniforms == uniforms
      ensures this.vertexShader == vertexShader && this.fragmentShader == fragmentShader
    {
      this.defines := defines;
      this.uniforms := uniforms;
      this.vertexShader := vertexShader;
      this.fragmentShader := fragmentShader;
    }
  }

  /** Entry (row, col) of a `Matrix3` given to `set` in row-major order */
  function Mat3Entry(rowMajor: seq<real>, row: nat, col: nat): real
    requires |rowMajor| == 9 && row < 3 && col < 3
  {
    rowMajor[3 * row + col]
  }

  /** Entry (row, col) of a `Matrix4`'s `elements`, which three.js stores column-major */
  function Mat4Entry(elements: seq<real>, row: nat, col: nat): real
    requires |elements| == 16 && row < 4 && col < 4
  {
    elements[4 * col + row]
  }
}
