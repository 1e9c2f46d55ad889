/**
 * The Shader record the compilers fill in (shader.h): its capability
 * flags, the settings they read and the compiled shader groups.
 */
module CyclesShader {
  import opened Wrappers
  import opened ShaderGraph

  /** ShaderType */
  datatype ShaderType = Surface | Volume | Displacement | Bump

  /** DisplacementMethod */
  datatype DisplacementMethod = DisplaceBump | DisplaceTrue | DisplaceBoth

  /** The capability flags of a shader (has_surface, has_surface_emission,
      ...); a shader's flags are the set of those that are true. */
  datatype Cap =
    | HasSurface | HasSurfaceEmission | HasSurfaceTransparent | HasSurfaceRaytrace
    | HasVolume | HasDisplacement | HasSurfaceBssrdf | HasBump | HasBssrdfBump
    | HasSurfaceSpatialVarying | HasVolumeSpatialVarying
    | HasVolumeAttributeDependency | HasIntegratorDependency

  type Caps = set<Cap>

  /** An OSL shader group: the node layers in the order they were emitted. */
  datatype GroupRef = GroupRef(layers: seq<NodeId>)

  class Shader {
    var graph: Option<Graph>
    var displacementMethod: DisplacementMethod
    var useTransparentShadow: bool
    var modified: bool
    var referenceCount: nat
    var caps: Caps
    var oslSurfaceRef: Option<GroupRef>
    var oslSurfaceBumpRef: Option<GroupRef>
    var oslVolumeRef: Option<GroupRef>
    var oslDisplacementRef: Option<GroupRef>

    constructor (g: Option<Graph>, displacement: DisplacementMethod, transparentShadow: bool, c: Caps)
      ensures graph == g && displacementMethod == displacement && useTransparentShadow == transparentShadow
      ensures caps == c && modified && referenceCount == 0
      ensures oslSurfaceRef == oslSurfaceBumpRef == oslVolumeRef == oslDisplacementRef == None
    {
      graph := g;
      displacementMethod := displacement;
      useTransparentShadow := transparentShadow;
      modified := true;
      referenceCount := 0;
      caps := c;
      oslSurfaceRef := None;
      oslSurfaceBumpRef := None;
      oslVolumeRef := None;
      oslDisplacementRef := None;
    }
  }
}
