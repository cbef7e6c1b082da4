/**
 * The pieces of the entity-component-system engine that the game rules refer to:
 * opaque entity handles and the application's top-level states.
 */
module Ecs {

  /** An engine entity handle; the rules only compare handles for identity. */
  type Entity = nat

  /**
   * The application states named across the game's systems (src/lib.rs declares
   * Loading, Playing and Menu; the dialog and loading systems also use Dialog,
   * TextLoading and AssetLoading).
   */
  datatype GameState = Loading | TextLoading | AssetLoading | Playing | Menu | Dialog
}
