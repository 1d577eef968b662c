/** The UIKit classes the engine's applier table and the sample rules name,
    with their BaseType links. */
module UIKit {
  import opened Runtime

  const NSObject: TypeId := 1
  const UIResponder: TypeId := 2
  const UIView: TypeId := 3
  const UILabel: TypeId := 4
  const UIControl: TypeId := 5
  const UIButton: TypeId := 6

  /** UILabel : UIView; UIButton : UIControl : UIView; UIView : UIResponder : NSObject : Object. */
  const Classes: Hierarchy := map[
    NSObject := ObjectType,
    UIResponder := NSObject,
    UIView := UIResponder,
    UILabel := UIView,
    UIControl := UIView,
    UIButton := UIControl
  ]
}
